/**
 * The step recorder used by the red-black tree tests
 * (`tests/lib/algorithms/algorithm.py`): every call the engine makes is turned
 * into a tuple appended to a first-in first-out list of steps.
 *
 * A Python tuple such as `('search', 1000, 'left')` is a sequence of atoms,
 * each a string or an integer.
 */
module StepRecording {
  import opened Wrappers
  import opened RedBlackSpec

  datatype Atom = Str(s: string) | Int(i: int)

  type StepTuple = seq<Atom>

  /** `direction.name.lower()` */
  function DirectionName(d: Direction): string
  {
    if d == Left then "left" else "right"
  }

  /** The letter the recorder writes for a side: `L` or `R`. */
  function DirectionLetter(d: Direction): char
  {
    if d == Left then 'L' else 'R'
  }

  function UncleKind(c: Color): string
  {
    if c == Red then "red-uncle" else "black-uncle"
  }

  /** The tuples the recorder appends for one engine call. */
  function Record(e: Event): (r: seq<StepTuple>)
    ensures 1 <= |r| <= 2
    ensures r[0] != [] && r[0][0].Str?
    ensures |r| == 2 <==> e.SearchNode? && e.finished
  {
    match e
    case InitTree => [[Str("set_as"), Str("root")]]
    case SearchNode(k, d, finished) =>
      [[Str("search"), Int(k), Str(DirectionName(d))]] + (if finished then [[Str("set_as"), Str("leaf")]] else [])
    case MatchNode(k) => [[Str("match"), Int(k)]]
    case UnmatchNode => [[Str("unmatch")]]
    case FixupTree(pf, mf, uncle) => [[Str("fixup"), Str(UncleKind(uncle)), Str([DirectionLetter(pf), DirectionLetter(mf)])]]
    case BlackenRootNode => [[Str("fixup"), Str("red-root")]]
  }

  /** The tuples recorded for a run of engine calls, in order. */
  function RecordAll(es: seq<Event>): seq<StepTuple>
  {
    if es == [] then [] else Record(es[0]) + RecordAll(es[1..])
  }

  lemma {:induction false} RecordAllAppend(a: seq<Event>, b: seq<Event>)
    ensures RecordAll(a + b) == RecordAll(a) + RecordAll(b)
  {
    if a == [] {
      assert a + b == b;
    } else {
      assert (a + b)[1..] == a[1..] + b;
      RecordAllAppend(a[1..], b);
    }
  }

  lemma RecordAllSnoc(es: seq<Event>, e: Event)
    ensures RecordAll(es + [e]) == RecordAll(es) + Record(e)
  {
    RecordAllAppend(es, [e]);
    assert RecordAll([e]) == Record(e) + RecordAll([]);
  }

  /** Every engine call leaves at least one tuple, so the queue holds at least as many tuples as calls. */
  lemma {:induction false} RecordAllLength(es: seq<Event>)
    ensures |es| <= |RecordAll(es)|
  {
    if es != [] { RecordAllLength(es[1..]); }
  }

  /** Replaying a longer run of calls after a mark. */
  lemma Replay(mark: seq<StepTuple>, pending: seq<Event>, es: seq<Event>)
    ensures mark + RecordAll(pending + es) == (mark + RecordAll(pending)) + RecordAll(es)
  {
    RecordAllAppend(pending, es);
  }

  class StepRecorder {
    var steps: seq<StepTuple>
    /** The queue as it was after the last pop or reset ... */
    ghost var mark: seq<StepTuple>
    /** ... and the engine calls made since then. */
    ghost var pending: seq<Event>

    /** The queue is what the engine calls since the mark left behind it. */
    ghost predicate Valid()
      reads this
    {
      steps == mark + RecordAll(pending)
    }

    constructor()
      ensures Valid() && steps == [] && pending == []
    {
      steps := [];
      mark := [];
      pending := [];
    }

    method InitTree()
      requires Valid()
      modifies this
      ensures Valid() && mark == old(mark) && pending == old(pending) + [Event.InitTree]
      ensures steps == old(steps) + Record(Event.InitTree)
    {
      steps := steps + [[Str("set_as"), Str("root")]];
      RecordAllSnoc(pending, Event.InitTree);
      pending := pending + [Event.InitTree];
    }

    method SearchNode(key: int, direction: Direction, finished: bool)
      requires Valid()
      modifies this
      ensures Valid() && mark == old(mark) && pending == old(pending) + [Event.SearchNode(key, direction, finished)]
      ensures steps == old(steps) + Record(Event.SearchNode(key, direction, finished))
    {
      steps := steps + [[Str("search"), Int(key), Str(DirectionName(direction))]];
      if finished {
        steps := steps + [[Str("set_as"), Str("leaf")]];
      }
      RecordAllSnoc(pending, Event.SearchNode(key, direction, finished));
      pending := pending + [Event.SearchNode(key, direction, finished)];
    }

    method MatchNode(key: int)
      requires Valid()
      modifies this
      ensures Valid() && mark == old(mark) && pending == old(pending) + [Event.MatchNode(key)]
      ensures steps == old(steps) + Record(Event.MatchNode(key))
    {
      steps := steps + [[Str("match"), Int(key)]];
      RecordAllSnoc(pending, Event.MatchNode(key));
      pending := pending + [Event.MatchNode(key)];
    }

    method UnmatchNode()
      requires Valid()
      modifies this
      ensures Valid() && mark == old(mark) && pending == old(pending) + [Event.UnmatchNode]
      ensures steps == old(steps) + Record(Event.UnmatchNode)
    {
      steps := steps + [[Str("unmatch")]];
      RecordAllSnoc(pending, Event.UnmatchNode);
      pending := pending + [Event.UnmatchNode];
    }

    /**
     * `fixup_tree(myself, parent, grandparent, uncle)` reads only the sides
     * the parent and the node hang on and the uncle's colour; those are its
     * arguments here.
     */
    method FixupTree(parentFrom: Direction, myselfFrom: Direction, uncle: Color)
      requires Valid()
      modifies this
      ensures Valid() && mark == old(mark) && pending == old(pending) + [Event.FixupTree(parentFrom, myselfFrom, uncle)]
      ensures steps == old(steps) + Record(Event.FixupTree(parentFrom, myselfFrom, uncle))
    {
      var direction := [DirectionLetter(parentFrom), DirectionLetter(myselfFrom)];
      if uncle == Red {
        steps := steps + [[Str("fixup"), Str("red-uncle"), Str(direction)]];
      } else {
        steps := steps + [[Str("fixup"), Str("black-uncle"), Str(direction)]];
      }
      RecordAllSnoc(pending, Event.FixupTree(parentFrom, myselfFrom, uncle));
      pending := pending + [Event.FixupTree(parentFrom, myselfFrom, uncle)];
    }

    method BlackenRootNode()
      requires Valid()
      modifies this
      ensures Valid() && mark == old(mark) && pending == old(pending) + [Event.BlackenRootNode]
      ensures steps == old(steps) + Record(Event.BlackenRootNode)
    {
      steps := steps + [[Str("fixup"), Str("red-root")]];
      RecordAllSnoc(pending, Event.BlackenRootNode);
      pending := pending + [Event.BlackenRootNode];
    }

    method Reset()
      modifies this
      ensures Valid() && steps == [] && pending == []
    {
      steps := [];
      mark, pending := [], [];
    }

    method IsEmpty() returns (empty: bool)
      ensures empty <==> |steps| == 0
    {
      empty := |steps| == 0;
    }

    /** Pops the oldest tuple, or gives `None` when the queue is empty. */
    method NextStep() returns (step: Option<StepTuple>)
      modifies this
      ensures Valid() && pending == []
      ensures old(steps) == [] ==> step == None && steps == []
      ensures old(steps) != [] ==> step == Some(old(steps)[0]) && steps == old(steps)[1..]
      ensures old(steps) == (if step.Some? then [step.value] else []) + steps
    {
      mark, pending := steps, [];
      if steps == [] {
        return None;
      }
      step := Some(steps[0]);
      steps := steps[1..];
      mark := steps;
    }

    method LeftSteps() returns (left: seq<StepTuple>)
      ensures left == steps
    {
      left := steps;
    }
  }
}
