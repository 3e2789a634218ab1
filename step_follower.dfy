/**
 * `AlgorithmStepFollower` of `tests/lib/algorithms/algorithm.py`: it loads a
 * list of actions with the steps expected of each, opens the engine's step
 * recorder, and then, action by action, resets the recorder, calls the
 * engine and takes the recorded tuples off the queue one expected step at a
 * time; an action whose queue has tuples left over fails too.
 *
 * `Follow` is what one action's check decides and `SpecRun` what a whole
 * run decides; the lemmas below say that a check passes exactly when the
 * expected steps describe the engine's calls.
 */
module StepFollowing {
  import opened Wrappers
  import opened RedBlackSpec
  import opened StepRecording
  import opened Algorithm
  import opened RedBlackTrees
  import opened StepLanguage

  /** Every way loading or running a follower stops with an exception. */
  datatype FollowError =
    | Parse(parse: ParseError)
    | Recorder(missing: AlgorithmError)
    | Engine(raised: TreeError)
    | EngineFault(fault: Fault)
    | MissingStep(expected: Step)
    | Mismatch(step: Step, actual: StepTuple, why: MatchError)
    | ExtraSteps(left: seq<StepTuple>)

  /**
   * One action's check: each expected step takes the next tuple off the
   * queue (none left: `MissingStep`) and must match it; a queue that is not
   * empty afterwards means more steps were recorded than expected.
   */
  function Follow(expected: seq<Step>, queue: seq<StepTuple>): Result<(), FollowError>
  {
    if expected == [] then (if queue == [] then Success(()) else Failure(ExtraSteps(queue)))
    else if queue == [] then Failure(MissingStep(expected[0]))
    else match MatchStep(expected[0], queue[0])
      case Failure(why) => Failure(Mismatch(expected[0], queue[0], why))
      case Success(_) => Follow(expected[1..], queue[1..])
  }

  /** A check passes exactly when there are as many tuples as steps and each step matches its tuple. */
  lemma {:induction false} FollowIff(expected: seq<Step>, queue: seq<StepTuple>)
    ensures Follow(expected, queue).Success? <==>
      |expected| == |queue| && forall i :: 0 <= i < |expected| ==> MatchStep(expected[i], queue[i]).Success?
  {
    if expected != [] && queue != [] {
      FollowIff(expected[1..], queue[1..]);
      assert forall i :: 1 <= i < |expected| ==> expected[1..][i - 1] == expected[i];
      assert forall i :: 1 <= i < |queue| ==> queue[1..][i - 1] == queue[i];
    }
  }

  /** The steps that describe the engine's calls pass the check of what the recorder wrote for them. */
  lemma DescribedFollows(es: seq<Event>)
    ensures Follow(DescribeAll(es), RecordAll(es)) == Success(())
  {
    var ss, q := DescribeAll(es), RecordAll(es);
    DescribeAllRecord(es);
    forall i | 0 <= i < |ss|
      ensures MatchStep(ss[i], q[i]).Success?
    {
      MatchIsPrefix(ss[i], q[i]);
      assert q[i][..|q[i]|] == q[i];
    }
    FollowIff(ss, q);
  }

  /**
   * Validated expected steps pass the check of a recorded run exactly when
   * they are the description of that run: the test data pins the engine's
   * calls down completely.
   */
  lemma FollowExact(ss: seq<Step>, es: seq<Event>)
    requires forall i :: 0 <= i < |ss| ==> StepOk(ss[i])
    ensures Follow(ss, RecordAll(es)).Success? <==> ss == DescribeAll(es)
  {
    var d, q := DescribeAll(es), RecordAll(es);
    DescribedFollows(es);
    if Follow(ss, q).Success? {
      FollowIff(ss, q);
      DescribeAllRecord(es);
      forall i | 0 <= i < |ss|
        ensures ss[i] == d[i]
      {
        MatchIsPrefix(ss[i], q[i]);
        ExpectedExact(ss[i], d[i]);
      }
    }
  }

  // ---------------------------------------------------------------------
  // What a run decides

  /** The engine's answer to one action: its new tree, arena size and calls; an exception; or a path not modelled. */
  datatype ActOutcome = Done(tree: Tree<()>, size: nat, events: seq<Event>) | Raised(error: FollowError) | Unknown

  /**
   * One action on a tree `t` held in an arena of `n` slots: `insert(key,
   * None)`, `search(key)` or `delete(key)`.  Deleting records nothing; a
   * deletion that reaches the double-black loop is known only for the lone
   * root, where it raises.
   */
  function SpecAct(t: Tree<()>, n: nat, allowDup: bool, a: Action): ActOutcome
  {
    match a.behavior
    case InsertKey =>
      (match SpecInsert(t, a.key, (), n, allowDup)
       case Duplicated(_, _) => Raised(Engine(InsertDuplicatedKey(a.key)))
       case Inserted(t', es) => Done(t', n + 1, es))
    case SearchKey => Done(t, n, SpecSearch(t, a.key).events)
    case DeleteKey =>
      (match SpecDelete(t, a.key)
       case NotFound => Done(t, n, [])
       case Removed(t') => Done(t', n, [])
       case DoubleBlack => if LoneRoot(t, a.key) then Raised(EngineFault(AttributeError)) else Unknown)
  }

  /**
   * `run()`: the actions in order, each followed by its check; the first
   * exception ends the run.  `heard` says whether the follower's recorder is
   * the one the engine reports to.  `None` when an action met a path the
   * model does not decide.
   */
  function SpecRun(t: Tree<()>, n: nat, allowDup: bool, heard: bool, actions: seq<Action>): Option<Result<(), FollowError>>
    decreases |actions|
  {
    if actions == [] then Some(Success(()))
    else match SpecAct(t, n, allowDup, actions[0])
      case Unknown => None
      case Raised(err) => Some(Failure(err))
      case Done(t', n', es) =>
        match Follow(actions[0].steps, Trace(heard, es))
        case Failure(err) => Some(Failure(err))
        case Success(_) => SpecRun(t', n', allowDup, heard, actions[1..])
  }

  /** The run of the actions `i` to `j` starts with action `i`. */
  lemma RunHead(t: Tree<()>, n: nat, allowDup: bool, heard: bool, actions: seq<Action>, i: nat, j: nat)
    requires i < j <= |actions|
    ensures var o := SpecAct(t, n, allowDup, actions[i]);
      SpecRun(t, n, allowDup, heard, actions[i..j]) ==
        if o.Unknown? then None
        else if o.Raised? then Some(Failure(o.error))
        else
          var f := Follow(actions[i].steps, Trace(heard, o.events));
          if f.Failure? then Some(Failure(f.error)) else SpecRun(o.tree, o.size, allowDup, heard, actions[i + 1..j])
  {
    assert actions[i..j][0] == actions[i];
    assert actions[i..j][1..] == actions[i + 1..j];
  }

  /** With no recorder heard there is nothing on the queue. */
  lemma Unheard(es: seq<Event>)
    ensures Trace(false, es) == []
  {
  }

  // ---------------------------------------------------------------------
  // The follower

  class StepFollower {
    const algorithm: RedBlackTree<()>
    const recorder: StepRecorder
    const behaviors: seq<Action>

    /** The follower's recorder is the engine's, and recording is on. */
    ghost predicate Heard()
      reads algorithm.base
    {
      recorder == algorithm.base.stepRecorder && algorithm.base.enableStepRecorder
    }

    /** The engine holds a red-black tree and its recorder, if any, keeps its queue in step. */
    ghost predicate Ready()
      reads algorithm, algorithm.base, algorithm.base.stepRecorder
    {
      algorithm.Valid() && algorithm.RecorderOk()
    }

    constructor Loaded(algorithm: RedBlackTree<()>, recorder: StepRecorder, behaviors: seq<Action>)
      ensures this.algorithm == algorithm && this.recorder == recorder && this.behaviors == behaviors
    {
      this.algorithm := algorithm;
      this.recorder := recorder;
      this.behaviors := behaviors;
    }

    /**
     * `AlgorithmStepFollower(behaviors, algorithm_imp, step_recorder)`: every
     * description is parsed, in order, and then the engine's recorder is
     * opened.
     */
    static method Load(items: seq<(string, seq<string>)>, algorithm: RedBlackTree<()>, recorder: StepRecorder)
      returns (r: Result<StepFollower, FollowError>)
      requires algorithm.base.Valid()
      modifies algorithm.base
      ensures algorithm.base.Valid()
      ensures ParseBehaviors(items).Failure? ==>
        r == Failure(Parse(ParseBehaviors(items).error)) && unchanged(algorithm.base)
      ensures ParseBehaviors(items).Success? && algorithm.base.stepRecorder == null ==>
        r == Failure(Recorder(RecorderMissing))
      ensures ParseBehaviors(items).Success? && algorithm.base.stepRecorder != null ==>
        r.Success? && fresh(r.value) && r.value.algorithm == algorithm && r.value.recorder == recorder &&
        r.value.behaviors == ParseBehaviors(items).value && algorithm.base.enableStepRecorder
    {
      var parsed := LoadBehaviors(items);
      if parsed.Failure? {
        return Failure(Parse(parsed.error));
      }
      var open := algorithm.base.OpenStepRecorder();
      if open.Failure? {
        return Failure(Recorder(open.error));
      }
      var follower := new StepFollower.Loaded(algorithm, recorder, parsed.value);
      r := Success(follower);
    }

    /** The outer loading loop: one action line and its step lines per item. */
    static method LoadBehaviors(items: seq<(string, seq<string>)>) returns (r: Result<seq<Action>, ParseError>)
      ensures r == ParseBehaviors(items)
    {
      var acts: seq<Action> := [];
      var i := 0;
      while i < |items|
        invariant 0 <= i <= |items|
        invariant ParseBehaviors(items[..i]) == Success(acts)
      {
        var a := LoadBehavior(items[i]);
        if a.Failure? {
          BehaviorsStop(items, i, a.error);
          return Failure(a.error);
        }
        BehaviorsGrow(items, i, acts, a.value);
        acts := acts + [a.value];
        i := i + 1;
      }
      assert items[..i] == items;
      r := Success(acts);
    }

    /** One item: its action line, then its step lines. */
    static method LoadBehavior(item: (string, seq<string>)) returns (r: Result<Action, ParseError>)
      ensures r == ParseBehavior(item)
    {
      var head := ParseActionLine(item.0);
      if head.Failure? {
        return Failure(head.error);
      }
      var steps := LoadSteps(item.1);
      if steps.Failure? {
        return Failure(steps.error);
      }
      r := Success(head.value.(steps := steps.value));
    }

    /** The inner loading loop: the step lines of one action. */
    static method LoadSteps(lines: seq<string>) returns (r: Result<seq<Step>, ParseError>)
      ensures r == ParseSteps(lines)
    {
      var ss: seq<Step> := [];
      var j := 0;
      while j < |lines|
        invariant 0 <= j <= |lines|
        invariant ParseSteps(lines[..j]) == Success(ss)
      {
        ParseStepsTake(lines, j);
        var s := ParseStepLine(lines[j]);
        if s.Failure? {
          StepsFailure(lines, j + 1);
          return Failure(s.error);
        }
        ss := ss + [s.value];
        j := j + 1;
      }
      assert lines[..j] == lines;
      r := Success(ss);
    }

    /** The engine call of one action. */
    method Perform(a: Action) returns (r: Result<(), FollowError>)
      requires Ready() && recorder.Valid()
      modifies algorithm, algorithm.base.stepRecorder
      ensures recorder.Valid()
      ensures var spec := SpecAct(old(algorithm.tree), old(|algorithm.nodes|), algorithm.allowDupKeys, a);
        (spec.Raised? ==> r == Failure(spec.error)) &&
        (spec.Done? ==>
          r == Success(()) && Ready() && algorithm.tree == spec.tree &&
          |algorithm.nodes| == spec.size && recorder.steps == old(recorder.steps) + Trace(Heard(), spec.events))
      ensures a.behavior == DeleteKey ==> recorder.steps == old(recorder.steps)
    {
      match a.behavior
      case InsertKey => r := PerformInsert(a.key);
      case SearchKey => r := PerformSearch(a.key);
      case DeleteKey => r := PerformDelete(a.key);
    }

    /** `insert(key, None)`; a duplicate key raises `RBTreeException`. */
    method PerformInsert(key: int) returns (r: Result<(), FollowError>)
      requires Ready() && recorder.Valid()
      modifies algorithm, algorithm.base.stepRecorder
      ensures recorder.Valid()
      ensures var spec := SpecInsert(old(algorithm.tree), key, (), old(|algorithm.nodes|), algorithm.allowDupKeys);
        (spec.Duplicated? ==> r == Failure(Engine(InsertDuplicatedKey(key)))) &&
        (spec.Inserted? ==>
          r == Success(()) && Ready() && algorithm.tree == spec.tree &&
          |algorithm.nodes| == old(|algorithm.nodes|) + 1 && recorder.steps == old(recorder.steps) + Trace(Heard(), spec.events))
    {
      var x := algorithm.Insert(key, ());
      if !Heard() {
        Unheard(SpecInsert(old(algorithm.tree), key, (), old(|algorithm.nodes|), algorithm.allowDupKeys).events);
      }
      r := if x.Failure? then Failure(Engine(x.error)) else Success(());
    }

    /** `search(key)`: the tree stays as it is. */
    method PerformSearch(key: int) returns (r: Result<(), FollowError>)
      requires Ready() && recorder.Valid()
      modifies algorithm.base.stepRecorder
      ensures recorder.Valid() && r == Success(()) && Ready()
      ensures recorder.steps == old(recorder.steps) + Trace(Heard(), SpecSearch(algorithm.tree, key).events)
    {
      var _ := algorithm.Search(key);
      if !Heard() {
        Unheard(SpecSearch(algorithm.tree, key).events);
      }
      r := Success(());
    }

    /** `delete(key)`, which records nothing. */
    method PerformDelete(key: int) returns (r: Result<(), FollowError>)
      requires Ready()
      modifies algorithm
      ensures var spec := SpecDelete(old(algorithm.tree), key);
        (spec.NotFound? ==> r == Success(()) && Ready() && algorithm.tree == old(algorithm.tree) && |algorithm.nodes| == old(|algorithm.nodes|)) &&
        (spec.Removed? ==> r == Success(()) && Ready() && algorithm.tree == spec.tree && |algorithm.nodes| == old(|algorithm.nodes|)) &&
        (spec.DoubleBlack? && LoneRoot(old(algorithm.tree), key) ==> r == Failure(EngineFault(AttributeError)))
    {
      var x := algorithm.Delete(key);
      r := if x.Failure? then Failure(EngineFault(x.error)) else Success(());
    }

    /** The inner loop of `run()`: one action's expected steps against the queue. */
    method Check(expected: seq<Step>) returns (r: Result<(), FollowError>)
      requires recorder.Valid()
      modifies recorder
      ensures recorder.Valid()
      ensures r == Follow(expected, old(recorder.steps))
    {
      var j := 0;
      while j < |expected|
        invariant 0 <= j <= |expected| && recorder.Valid()
        invariant Follow(expected[j..], recorder.steps) == Follow(expected, old(recorder.steps))
      {
        assert expected[j..][0] == expected[j] && expected[j..][1..] == expected[j + 1..];
        var actual := recorder.NextStep();
        if actual.None? {
          return Failure(MissingStep(expected[j]));
        }
        var m := MatchStep(expected[j], actual.value);
        if m.Failure? {
          return Failure(Mismatch(expected[j], actual.value, m.error));
        }
        j := j + 1;
      }
      var empty := recorder.IsEmpty();
      if !empty {
        var left := recorder.LeftSteps();
        return Failure(ExtraSteps(left));
      }
      r := Success(());
    }

    /** One pass of the loop of `run()`: reset the recorder, call the engine, check the queue. */
    method Act(a: Action) returns (r: Result<(), FollowError>)
      requires Ready() && recorder.Valid()
      modifies algorithm, algorithm.base.stepRecorder, recorder
      ensures var spec := SpecAct(old(algorithm.tree), old(|algorithm.nodes|), algorithm.allowDupKeys, a);
        (spec.Raised? ==> r == Failure(spec.error)) &&
        (spec.Done? ==>
          r == Follow(a.steps, Trace(Heard(), spec.events)) &&
          (r.Success? ==> Ready() && recorder.Valid() && algorithm.tree == spec.tree && |algorithm.nodes| == spec.size))
    {
      ghost var heard := Heard();
      recorder.Reset();
      r := Perform(a);
      ghost var queue := recorder.steps;
      if r.Success? {
        r := Check(a.steps);
      }
      assert Heard() == heard;
      ghost var spec := SpecAct(old(algorithm.tree), old(|algorithm.nodes|), algorithm.allowDupKeys, a);
      assert spec.Done? ==> queue == Trace(heard, spec.events);
    }

    /**
     * `run()`.  Callable when no action but the last meets a path of
     * `delete` the model leaves open; then the result is the one `SpecRun`
     * gives whenever that one is decided.
     */
    method Run() returns (r: Result<(), FollowError>)
      requires Ready() && recorder.Valid()
      requires |behaviors| == 0 ||
        SpecRun(algorithm.tree, |algorithm.nodes|, algorithm.allowDupKeys, Heard(), behaviors[..|behaviors| - 1]).Some?
      modifies algorithm, algorithm.base.stepRecorder, recorder
      ensures var spec := SpecRun(old(algorithm.tree), old(|algorithm.nodes|), algorithm.allowDupKeys, Heard(), behaviors);
        spec.Some? ==> r == spec.value
    {
      ghost var heard := Heard();
      var m := |behaviors|;
      assert behaviors[0..m] == behaviors;
      assert m > 0 ==> behaviors[..m - 1] == behaviors[0..m - 1];
      ghost var run := SpecRun(algorithm.tree, |algorithm.nodes|, algorithm.allowDupKeys, heard, behaviors[0..m]);
      ghost var known := true;
      var i := 0;
      while i < m
        invariant 0 <= i <= m && Heard() == heard
        invariant i < m ==> known && Ready() && recorder.Valid()
        invariant known ==> SpecRun(algorithm.tree, |algorithm.nodes|, algorithm.allowDupKeys, heard, behaviors[i..m]) == run
        invariant !known ==> run.None?
        invariant i < m ==> SpecRun(algorithm.tree, |algorithm.nodes|, algorithm.allowDupKeys, heard, behaviors[i..m - 1]).Some?
      {
        ghost var t, n := algorithm.tree, |algorithm.nodes|;
        RunHead(t, n, algorithm.allowDupKeys, heard, behaviors, i, m);
        if i < m - 1 {
          RunHead(t, n, algorithm.allowDupKeys, heard, behaviors, i, m - 1);
        }
        ghost var spec := SpecAct(t, n, algorithm.allowDupKeys, behaviors[i]);
        r := Act(behaviors[i]);
        if spec.Unknown? {
          known := false;
        }
        if r.Failure? {
          return;
        }
        i := i + 1;
      }
      r := Success(());
    }
  }

  /** A refused step line ends the parse with its error. */
  lemma {:induction false} StepsFailure(lines: seq<string>, j: nat)
    requires j <= |lines| && ParseSteps(lines[..j]).Failure?
    ensures ParseSteps(lines) == ParseSteps(lines[..j])
    decreases |lines| - j
  {
    if j < |lines| {
      ParseStepsTake(lines, j);
      StepsFailure(lines, j + 1);
    } else {
      assert lines[..j] == lines;
    }
  }

  /** One more accepted item extends the parsed actions by its action. */
  lemma BehaviorsGrow(items: seq<(string, seq<string>)>, i: nat, acts: seq<Action>, a: Action)
    requires i < |items| && ParseBehaviors(items[..i]) == Success(acts) && ParseBehavior(items[i]) == Success(a)
    ensures ParseBehaviors(items[..i + 1]) == Success(acts + [a])
  {
    ParseBehaviorsTake(items, i);
  }

  /** A refused item after accepted ones ends the whole parse with its error. */
  lemma BehaviorsStop(items: seq<(string, seq<string>)>, i: nat, e: ParseError)
    requires i < |items| && ParseBehaviors(items[..i]).Success? && ParseBehavior(items[i]) == Failure(e)
    ensures ParseBehaviors(items) == Failure(e)
  {
    ParseBehaviorsTake(items, i);
    BehaviorsFailure(items, i + 1);
  }

  /** A refused description ends the parse of the behaviour list with its error. */
  lemma {:induction false} BehaviorsFailure(items: seq<(string, seq<string>)>, i: nat)
    requires i <= |items| && ParseBehaviors(items[..i]).Failure?
    ensures ParseBehaviors(items) == ParseBehaviors(items[..i])
    decreases |items| - i
  {
    if i < |items| {
      ParseBehaviorsTake(items, i);
      BehaviorsFailure(items, i + 1);
    } else {
      assert items[..i] == items;
    }
  }
}
