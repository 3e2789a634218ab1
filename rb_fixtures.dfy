/**
 * The fixtures of `tests/lib/algorithms/__data__/fake_red_black_tree.py`
 * and the tests of `tests/lib/algorithms/test_red_black_tree.py` that run
 * them: the trees the engine builds while following `INSERTION_STEPS` (node
 * identities are arena slots, numbered in insertion order), the behaviour
 * lists as actions and as text, and what each run gives.
 */
module RedBlackFixtures {
  import opened Wrappers
  import opened RedBlackSpec
  import opened StepRecording
  import opened RedBlackTrees
  import opened StepLanguage
  import opened StepFollowing

  const T0: Tree<()> := Nil
  const T1: Tree<()> := Node(1, Black, 1000, (), Nil, Nil)
  const T2: Tree<()> := Node(1, Black, 1000, (), Node(2, Red, 500, (), Nil, Nil), Nil)
  const T3: Tree<()> := Node(1, Black, 1000, (), Node(2, Red, 500, (), Nil, Nil), Node(3, Red, 1500, (), Nil, Nil))
  const T4: Tree<()> := Node(1, Black, 1000, (), Node(2, Black, 500, (), Node(4, Red, 250, (), Nil, Nil), Nil), Node(3, Black, 1500, (), Nil, Nil))
  const T5: Tree<()> := Node(1, Black, 1000, (), Node(2, Black, 500, (), Node(4, Red, 250, (), Nil, Nil), Nil), Node(3, Black, 1500, (), Nil, Node(5, Red, 1750, (), Nil, Nil)))
  const T6: Tree<()> := Node(1, Black, 1000, (), Node(2, Black, 500, (), Node(4, Red, 250, (), Nil, Nil), Nil), Node(3, Black, 1500, (), Node(6, Red, 1250, (), Nil, Nil), Node(5, Red, 1750, (), Nil, Nil)))
  const T7: Tree<()> := Node(1, Black, 1000, (), Node(4, Black, 250, (), Node(7, Red, 125, (), Nil, Nil), Node(2, Red, 500, (), Nil, Nil)), Node(3, Black, 1500, (), Node(6, Red, 1250, (), Nil, Nil), Node(5, Red, 1750, (), Nil, Nil)))
  const T8: Tree<()> := Node(1, Black, 1000, (), Node(4, Red, 250, (), Node(7, Black, 125, (), Node(8, Red, 65, (), Nil, Nil), Nil), Node(2, Black, 500, (), Nil, Nil)), Node(3, Black, 1500, (), Node(6, Red, 1250, (), Nil, Nil), Node(5, Red, 1750, (), Nil, Nil)))
  const T9: Tree<()> := Node(1, Black, 1000, (), Node(4, Red, 250, (), Node(7, Black, 125, (), Node(8, Red, 65, (), Nil, Nil), Nil), Node(2, Black, 500, (), Nil, Nil)), Node(3, Red, 1500, (), Node(6, Black, 1250, (), Nil, Nil), Node(5, Black, 1750, (), Nil, Node(9, Red, 2000, (), Nil, Nil))))
  const T10: Tree<()> := Node(1, Black, 1000, (), Node(4, Red, 250, (), Node(10, Black, 95, (), Node(8, Red, 65, (), Nil, Nil), Node(7, Red, 125, (), Nil, Nil)), Node(2, Black, 500, (), Nil, Nil)), Node(3, Red, 1500, (), Node(6, Black, 1250, (), Nil, Nil), Node(5, Black, 1750, (), Nil, Node(9, Red, 2000, (), Nil, Nil))))
  const T11: Tree<()> := Node(1, Black, 1000, (), Node(4, Red, 250, (), Node(10, Black, 95, (), Node(8, Red, 65, (), Nil, Nil), Node(7, Red, 125, (), Nil, Nil)), Node(2, Black, 500, (), Nil, Nil)), Node(3, Red, 1500, (), Node(6, Black, 1250, (), Nil, Nil), Node(9, Black, 2000, (), Node(5, Red, 1750, (), Nil, Nil), Node(11, Red, 2500, (), Nil, Nil))))
  const T12: Tree<()> := Node(1, Black, 1000, (), Node(4, Red, 250, (), Node(10, Black, 95, (), Node(8, Red, 65, (), Nil, Nil), Node(7, Red, 125, (), Nil, Nil)), Node(2, Black, 500, (), Node(12, Red, 350, (), Nil, Nil), Nil)), Node(3, Red, 1500, (), Node(6, Black, 1250, (), Nil, Nil), Node(9, Black, 2000, (), Node(5, Red, 1750, (), Nil, Nil), Node(11, Red, 2500, (), Nil, Nil))))
  const T13: Tree<()> := Node(1, Black, 1000, (), Node(4, Red, 250, (), Node(10, Black, 95, (), Node(8, Red, 65, (), Nil, Nil), Node(7, Red, 125, (), Nil, Nil)), Node(2, Black, 500, (), Node(12, Red, 350, (), Nil, Nil), Node(13, Red, 750, (), Nil, Nil))), Node(3, Red, 1500, (), Node(6, Black, 1250, (), Nil, Nil), Node(9, Black, 2000, (), Node(5, Red, 1750, (), Nil, Nil), Node(11, Red, 2500, (), Nil, Nil))))
  const T14: Tree<()> := Node(1, Black, 1000, (), Node(4, Black, 250, (), Node(10, Black, 95, (), Node(8, Red, 65, (), Nil, Nil), Node(7, Red, 125, (), Nil, Nil)), Node(2, Red, 500, (), Node(12, Black, 350, (), Nil, Node(14, Red, 400, (), Nil, Nil)), Node(13, Black, 750, (), Nil, Nil))), Node(3, Black, 1500, (), Node(6, Black, 1250, (), Nil, Nil), Node(9, Black, 2000, (), Node(5, Red, 1750, (), Nil, Nil), Node(11, Red, 2500, (), Nil, Nil))))
  const T15: Tree<()> := Node(1, Black, 1000, (), Node(4, Black, 250, (), Node(10, Black, 95, (), Node(8, Red, 65, (), Nil, Nil), Node(7, Red, 125, (), Nil, Nil)), Node(2, Red, 500, (), Node(15, Black, 380, (), Node(12, Red, 350, (), Nil, Nil), Node(14, Red, 400, (), Nil, Nil)), Node(13, Black, 750, (), Nil, Nil))), Node(3, Black, 1500, (), Node(6, Black, 1250, (), Nil, Nil), Node(9, Black, 2000, (), Node(5, Red, 1750, (), Nil, Nil), Node(11, Red, 2500, (), Nil, Nil))))
  const T16: Tree<()> := Node(1, Black, 1000, (), Node(15, Black, 380, (), Node(4, Red, 250, (), Node(10, Black, 95, (), Node(8, Red, 65, (), Nil, Nil), Node(7, Red, 125, (), Nil, Nil)), Node(12, Black, 350, (), Nil, Nil)), Node(2, Red, 500, (), Node(14, Black, 400, (), Node(16, Red, 390, (), Nil, Nil), Nil), Node(13, Black, 750, (), Nil, Nil))), Node(3, Black, 1500, (), Node(6, Black, 1250, (), Nil, Nil), Node(9, Black, 2000, (), Node(5, Red, 1750, (), Nil, Nil), Node(11, Red, 2500, (), Nil, Nil))))
  const T17: Tree<()> := Node(1, Black, 1000, (), Node(15, Black, 380, (), Node(4, Red, 250, (), Node(10, Black, 95, (), Node(8, Red, 65, (), Nil, Nil), Node(7, Red, 125, (), Nil, Nil)), Node(12, Black, 350, (), Nil, Nil)), Node(2, Red, 500, (), Node(14, Black, 400, (), Node(16, Red, 390, (), Nil, Nil), Nil), Node(13, Black, 750, (), Nil, Nil))), Node(3, Black, 1500, (), Node(6, Black, 1250, (), Node(17, Red, 1250, (), Nil, Nil), Nil), Node(9, Black, 2000, (), Node(5, Red, 1750, (), Nil, Nil), Node(11, Red, 2500, (), Nil, Nil))))

  /** `INSERTION_STEPS`: sixteen insertions, each with the steps the fixture expects of it. */
  const Insertion: seq<Action> := [
    Action(InsertKey, 1000, [SetAs("root")]),
    Action(InsertKey, 500, [Search(1000, Left), SetAs("leaf")]),
    Action(InsertKey, 1500, [Search(1000, Right), SetAs("leaf")]),
    Action(InsertKey, 250, [Search(1000, Left), Search(500, Left), SetAs("leaf"), FixupUncle("red-uncle", "LL"), FixupRoot]),
    Action(InsertKey, 1750, [Search(1000, Right), Search(1500, Right), SetAs("leaf")]),
    Action(InsertKey, 1250, [Search(1000, Right), Search(1500, Left), SetAs("leaf")]),
    Action(InsertKey, 125, [Search(1000, Left), Search(500, Left), Search(250, Left), SetAs("leaf"), FixupUncle("black-uncle", "LL")]),
    Action(InsertKey, 65, [Search(1000, Left), Search(250, Left), Search(125, Left), SetAs("leaf"), FixupUncle("red-uncle", "LL")]),
    Action(InsertKey, 2000, [Search(1000, Right), Search(1500, Right), Search(1750, Right), SetAs("leaf"), FixupUncle("red-uncle", "RR")]),
    Action(InsertKey, 95, [Search(1000, Left), Search(250, Left), Search(125, Left), Search(65, Right), SetAs("leaf"), FixupUncle("black-uncle", "LR")]),
    Action(InsertKey, 2500, [Search(1000, Right), Search(1500, Right), Search(1750, Right), Search(2000, Right), SetAs("leaf"), FixupUncle("black-uncle", "RR")]),
    Action(InsertKey, 350, [Search(1000, Left), Search(250, Right), Search(500, Left), SetAs("leaf")]),
    Action(InsertKey, 750, [Search(1000, Left), Search(250, Right), Search(500, Right), SetAs("leaf")]),
    Action(InsertKey, 400, [Search(1000, Left), Search(250, Right), Search(500, Left), Search(350, Right), SetAs("leaf"), FixupUncle("red-uncle", "LR"), FixupUncle("red-uncle", "LR"), FixupRoot]),
    Action(InsertKey, 380, [Search(1000, Left), Search(250, Right), Search(500, Left), Search(350, Right), Search(400, Left), SetAs("leaf"), FixupUncle("black-uncle", "RL")]),
    Action(InsertKey, 390, [Search(1000, Left), Search(250, Right), Search(500, Left), Search(380, Right), Search(400, Left), SetAs("leaf"), FixupUncle("red-uncle", "RL"), FixupUncle("black-uncle", "RL")])]

  /** The same behaviour list as text, one `(action, steps)` item per action. */
  const InsertionText: seq<(string, seq<string>)> := [
    ("+ 1000", ["as root"]),
    ("+ 500", ["s 1000 <-", "as leaf"]),
    ("+ 1500", ["s 1000 ->", "as leaf"]),
    ("+ 250", ["s 1000 <-", "s 500 <-", "as leaf", "f red-uncle LL", "f red-root"]),
    ("+ 1750", ["s 1000 ->", "s 1500 ->", "as leaf"]),
    ("+ 1250", ["s 1000 ->", "s 1500 <-", "as leaf"]),
    ("+ 125", ["s 1000 <-", "s 500 <-", "s 250 <-", "as leaf", "f black-uncle LL"]),
    ("+ 65", ["s 1000 <-", "s 250 <-", "s 125 <-", "as leaf", "f red-uncle LL"]),
    ("+ 2000", ["s 1000 ->", "s 1500 ->", "s 1750 ->", "as leaf", "f red-uncle RR"]),
    ("+ 95", ["s 1000 <-", "s 250 <-", "s 125 <-", "s 65 ->", "as leaf", "f black-uncle LR"]),
    ("+ 2500", ["s 1000 ->", "s 1500 ->", "s 1750 ->", "s 2000 ->", "as leaf", "f black-uncle RR"]),
    ("+ 350", ["s 1000 <-", "s 250 ->", "s 500 <-", "as leaf"]),
    ("+ 750", ["s 1000 <-", "s 250 ->", "s 500 ->", "as leaf"]),
    ("+ 400", ["s 1000 <-", "s 250 ->", "s 500 <-", "s 350 ->", "as leaf", "f red-uncle LR", "f red-uncle LR", "f red-root"]),
    ("+ 380", ["s 1000 <-", "s 250 ->", "s 500 <-", "s 350 ->", "s 400 <-", "as leaf", "f black-uncle RL"]),
    ("+ 390", ["s 1000 <-", "s 250 ->", "s 500 <-", "s 380 ->", "s 400 <-", "as leaf", "f red-uncle RL", "f black-uncle RL"])]

  const DuplicateKey: Action := Action(InsertKey, 1250, [Search(1000, Right), Search(1500, Left), Search(1250, Left), SetAs("leaf")])
  const DuplicateKeyText: (string, seq<string>) := ("+ 1250", ["s 1000 ->", "s 1500 <-", "s 1250 <-", "as leaf"])

  const Search400: Action := Action(SearchKey, 400, [Search(1000, Left), Search(380, Right), Search(500, Left), MatchKey(400)])
  const Search400Text: (string, seq<string>) := ("/ 400", ["s 1000 <-", "s 380 ->", "s 500 <-", "match 400"])

  const Search450: Action := Action(SearchKey, 450, [Search(1000, Left), Search(380, Right), Search(500, Left), Search(400, Right), Unmatch])
  const Search450Text: (string, seq<string>) := ("/ 450", ["s 1000 <-", "s 380 ->", "s 500 <-", "s 400 ->", "unmatch"])

  lemma Spec1000(allowDup: bool)
    ensures SpecInsert(T0, 1000, (), 1, allowDup) == Inserted(T1, [InitTree])
  {
  }

  lemma Act1000(allowDup: bool)
    ensures SpecAct(T0, 1, allowDup, Insertion[0]) == Done(T1, 2, [InitTree])
  {
    Spec1000(allowDup);
  }

  lemma Check1000()
    ensures Follow(Insertion[0].steps, Trace(true, [InitTree])) == Success(())
  {
    assert Insertion[0].steps == DescribeAll([InitTree]);
    DescribedFollows([InitTree]);
  }

  lemma Descent500(allowDup: bool)
    ensures SpecInsert(T1, 500, (), 2, allowDup) == var (r, es) := Fixup(Up(Left, 1, Black, 1000, (), Nil, Top), Node(2, Red, 500, (), Nil, Nil), [SearchNode(1000, Left, true)]); Inserted(r, es)
  {
  }

  lemma Fixup500()
    ensures var x := Fixup(Up(Left, 1, Black, 1000, (), Nil, Top), Node(2, Red, 500, (), Nil, Nil), [SearchNode(1000, Left, true)]); x.0 == T2 && x.1 == [SearchNode(1000, Left, true)]
  {
  }

  lemma Spec500(allowDup: bool)
    ensures SpecInsert(T1, 500, (), 2, allowDup) == Inserted(T2, [SearchNode(1000, Left, true)])
  {
    Descent500(allowDup);
    Fixup500();
  }

  lemma Act500(allowDup: bool)
    ensures SpecAct(T1, 2, allowDup, Insertion[1]) == Done(T2, 3, [SearchNode(1000, Left, true)])
  {
    Spec500(allowDup);
  }

  lemma Check500()
    ensures Follow(Insertion[1].steps, Trace(true, [SearchNode(1000, Left, true)])) == Success(())
  {
    assert Insertion[1].steps == DescribeAll([SearchNode(1000, Left, true)]);
    DescribedFollows([SearchNode(1000, Left, true)]);
  }

  lemma Descent1500(allowDup: bool)
    ensures SpecInsert(T2, 1500, (), 3, allowDup) == var (r, es) := Fixup(Up(Right, 1, Black, 1000, (), Node(2, Red, 500, (), Nil, Nil), Top), Node(3, Red, 1500, (), Nil, Nil), [SearchNode(1000, Right, true)]); Inserted(r, es)
  {
  }

  lemma Fixup1500()
    ensures var x := Fixup(Up(Right, 1, Black, 1000, (), Node(2, Red, 500, (), Nil, Nil), Top), Node(3, Red, 1500, (), Nil, Nil), [SearchNode(1000, Right, true)]); x.0 == T3 && x.1 == [SearchNode(1000, Right, true)]
  {
  }

  lemma Spec1500(allowDup: bool)
    ensures SpecInsert(T2, 1500, (), 3, allowDup) == Inserted(T3, [SearchNode(1000, Right, true)])
  {
    Descent1500(allowDup);
    Fixup1500();
  }

  lemma Act1500(allowDup: bool)
    ensures SpecAct(T2, 3, allowDup, Insertion[2]) == Done(T3, 4, [SearchNode(1000, Right, true)])
  {
    Spec1500(allowDup);
  }

  lemma Check1500()
    ensures Follow(Insertion[2].steps, Trace(true, [SearchNode(1000, Right, true)])) == Success(())
  {
    assert Insertion[2].steps == DescribeAll([SearchNode(1000, Right, true)]);
    DescribedFollows([SearchNode(1000, Right, true)]);
  }

  lemma Descent250(allowDup: bool)
    ensures SpecInsert(T3, 250, (), 4, allowDup) == var (r, es) := Fixup(Up(Left, 2, Red, 500, (), Nil, Up(Left, 1, Black, 1000, (), Node(3, Red, 1500, (), Nil, Nil), Top)), Node(4, Red, 250, (), Nil, Nil), [SearchNode(1000, Left, false), SearchNode(500, Left, true)]); Inserted(r, es)
  {
  }

  lemma Fixup250()
    ensures var x := Fixup(Up(Left, 2, Red, 500, (), Nil, Up(Left, 1, Black, 1000, (), Node(3, Red, 1500, (), Nil, Nil), Top)), Node(4, Red, 250, (), Nil, Nil), [SearchNode(1000, Left, false), SearchNode(500, Left, true)]); x.0 == T4 && x.1 == [SearchNode(1000, Left, false), SearchNode(500, Left, true), FixupTree(Left, Left, Red), BlackenRootNode]
  {
  }

  lemma Spec250(allowDup: bool)
    ensures SpecInsert(T3, 250, (), 4, allowDup) == Inserted(T4, [SearchNode(1000, Left, false), SearchNode(500, Left, true), FixupTree(Left, Left, Red), BlackenRootNode])
  {
    Descent250(allowDup);
    Fixup250();
  }

  lemma Act250(allowDup: bool)
    ensures SpecAct(T3, 4, allowDup, Insertion[3]) == Done(T4, 5, [SearchNode(1000, Left, false), SearchNode(500, Left, true), FixupTree(Left, Left, Red), BlackenRootNode])
  {
    Spec250(allowDup);
  }

  lemma Check250()
    ensures Follow(Insertion[3].steps, Trace(true, [SearchNode(1000, Left, false), SearchNode(500, Left, true), FixupTree(Left, Left, Red), BlackenRootNode])) == Success(())
  {
    assert Insertion[3].steps == DescribeAll([SearchNode(1000, Left, false), SearchNode(500, Left, true), FixupTree(Left, Left, Red), BlackenRootNode]);
    DescribedFollows([SearchNode(1000, Left, false), SearchNode(500, Left, true), FixupTree(Left, Left, Red), BlackenRootNode]);
  }

  lemma Descent1750(allowDup: bool)
    ensures SpecInsert(T4, 1750, (), 5, allowDup) == var (r, es) := Fixup(Up(Right, 3, Black, 1500, (), Nil, Up(Right, 1, Black, 1000, (), Node(2, Black, 500, (), Node(4, Red, 250, (), Nil, Nil), Nil), Top)), Node(5, Red, 1750, (), Nil, Nil), [SearchNode(1000, Right, false), SearchNode(1500, Right, true)]); Inserted(r, es)
  {
  }

  lemma Fixup1750()
    ensures var x := Fixup(Up(Right, 3, Black, 1500, (), Nil, Up(Right, 1, Black, 1000, (), Node(2, Black, 500, (), Node(4, Red, 250, (), Nil, Nil), Nil), Top)), Node(5, Red, 1750, (), Nil, Nil), [SearchNode(1000, Right, false), SearchNode(1500, Right, true)]); x.0 == T5 && x.1 == [SearchNode(1000, Right, false), SearchNode(1500, Right, true)]
  {
  }

  lemma Spec1750(allowDup: bool)
    ensures SpecInsert(T4, 1750, (), 5, allowDup) == Inserted(T5, [SearchNode(1000, Right, false), SearchNode(1500, Right, true)])
  {
    Descent1750(allowDup);
    Fixup1750();
  }

  lemma Act1750(allowDup: bool)
    ensures SpecAct(T4, 5, allowDup, Insertion[4]) == Done(T5, 6, [SearchNode(1000, Right, false), SearchNode(1500, Right, true)])
  {
    Spec1750(allowDup);
  }

  lemma Check1750()
    ensures Follow(Insertion[4].steps, Trace(true, [SearchNode(1000, Right, false), SearchNode(1500, Right, true)])) == Success(())
  {
    assert Insertion[4].steps == DescribeAll([SearchNode(1000, Right, false), SearchNode(1500, Right, true)]);
    DescribedFollows([SearchNode(1000, Right, false), SearchNode(1500, Right, true)]);
  }

  lemma Descent1250(allowDup: bool)
    ensures SpecInsert(T5, 1250, (), 6, allowDup) == var (r, es) := Fixup(Up(Left, 3, Black, 1500, (), Node(5, Red, 1750, (), Nil, Nil), Up(Right, 1, Black, 1000, (), Node(2, Black, 500, (), Node(4, Red, 250, (), Nil, Nil), Nil), Top)), Node(6, Red, 1250, (), Nil, Nil), [SearchNode(1000, Right, false), SearchNode(1500, Left, true)]); Inserted(r, es)
  {
  }

  lemma Fixup1250()
    ensures var x := Fixup(Up(Left, 3, Black, 1500, (), Node(5, Red, 1750, (), Nil, Nil), Up(Right, 1, Black, 1000, (), Node(2, Black, 500, (), Node(4, Red, 250, (), Nil, Nil), Nil), Top)), Node(6, Red, 1250, (), Nil, Nil), [SearchNode(1000, Right, false), SearchNode(1500, Left, true)]); x.0 == T6 && x.1 == [SearchNode(1000, Right, false), SearchNode(1500, Left, true)]
  {
  }

  lemma Spec1250(allowDup: bool)
    ensures SpecInsert(T5, 1250, (), 6, allowDup) == Inserted(T6, [SearchNode(1000, Right, false), SearchNode(1500, Left, true)])
  {
    Descent1250(allowDup);
    Fixup1250();
  }

  lemma Act1250(allowDup: bool)
    ensures SpecAct(T5, 6, allowDup, Insertion[5]) == Done(T6, 7, [SearchNode(1000, Right, false), SearchNode(1500, Left, true)])
  {
    Spec1250(allowDup);
  }

  lemma Check1250()
    ensures Follow(Insertion[5].steps, Trace(true, [SearchNode(1000, Right, false), SearchNode(1500, Left, true)])) == Success(())
  {
    assert Insertion[5].steps == DescribeAll([SearchNode(1000, Right, false), SearchNode(1500, Left, true)]);
    DescribedFollows([SearchNode(1000, Right, false), SearchNode(1500, Left, true)]);
  }

  lemma Descent125(allowDup: bool)
    ensures SpecInsert(T6, 125, (), 7, allowDup) == var (r, es) := Fixup(Up(Left, 4, Red, 250, (), Nil, Up(Left, 2, Black, 500, (), Nil, Up(Left, 1, Black, 1000, (), Node(3, Black, 1500, (), Node(6, Red, 1250, (), Nil, Nil), Node(5, Red, 1750, (), Nil, Nil)), Top))), Node(7, Red, 125, (), Nil, Nil), [SearchNode(1000, Left, false), SearchNode(500, Left, false), SearchNode(250, Left, true)]); Inserted(r, es)
  {
  }

  lemma Fixup125()
    ensures var x := Fixup(Up(Left, 4, Red, 250, (), Nil, Up(Left, 2, Black, 500, (), Nil, Up(Left, 1, Black, 1000, (), Node(3, Black, 1500, (), Node(6, Red, 1250, (), Nil, Nil), Node(5, Red, 1750, (), Nil, Nil)), Top))), Node(7, Red, 125, (), Nil, Nil), [SearchNode(1000, Left, false), SearchNode(500, Left, false), SearchNode(250, Left, true)]); x.0 == T7 && x.1 == [SearchNode(1000, Left, false), SearchNode(500, Left, false), SearchNode(250, Left, true), FixupTree(Left, Left, Black)]
  {
  }

  lemma Spec125(allowDup: bool)
    ensures SpecInsert(T6, 125, (), 7, allowDup) == Inserted(T7, [SearchNode(1000, Left, false), SearchNode(500, Left, false), SearchNode(250, Left, true), FixupTree(Left, Left, Black)])
  {
    Descent125(allowDup);
    Fixup125();
  }

  lemma Act125(allowDup: bool)
    ensures SpecAct(T6, 7, allowDup, Insertion[6]) == Done(T7, 8, [SearchNode(1000, Left, false), SearchNode(500, Left, false), SearchNode(250, Left, true), FixupTree(Left, Left, Black)])
  {
    Spec125(allowDup);
  }

  lemma Check125()
    ensures Follow(Insertion[6].steps, Trace(true, [SearchNode(1000, Left, false), SearchNode(500, Left, false), SearchNode(250, Left, true), FixupTree(Left, Left, Black)])) == Success(())
  {
    assert Insertion[6].steps == DescribeAll([SearchNode(1000, Left, false), SearchNode(500, Left, false), SearchNode(250, Left, true), FixupTree(Left, Left, Black)]);
    DescribedFollows([SearchNode(1000, Left, false), SearchNode(500, Left, false), SearchNode(250, Left, true), FixupTree(Left, Left, Black)]);
  }

  lemma Descent65(allowDup: bool)
    ensures SpecInsert(T7, 65, (), 8, allowDup) == var (r, es) := Fixup(Up(Left, 7, Red, 125, (), Nil, Up(Left, 4, Black, 250, (), Node(2, Red, 500, (), Nil, Nil), Up(Left, 1, Black, 1000, (), Node(3, Black, 1500, (), Node(6, Red, 1250, (), Nil, Nil), Node(5, Red, 1750, (), Nil, Nil)), Top))), Node(8, Red, 65, (), Nil, Nil), [SearchNode(1000, Left, false), SearchNode(250, Left, false), SearchNode(125, Left, true)]); Inserted(r, es)
  {
  }

  lemma Fixup65()
    ensures var x := Fixup(Up(Left, 7, Red, 125, (), Nil, Up(Left, 4, Black, 250, (), Node(2, Red, 500, (), Nil, Nil), Up(Left, 1, Black, 1000, (), Node(3, Black, 1500, (), Node(6, Red, 1250, (), Nil, Nil), Node(5, Red, 1750, (), Nil, Nil)), Top))), Node(8, Red, 65, (), Nil, Nil), [SearchNode(1000, Left, false), SearchNode(250, Left, false), SearchNode(125, Left, true)]); x.0 == T8 && x.1 == [SearchNode(1000, Left, false), SearchNode(250, Left, false), SearchNode(125, Left, true), FixupTree(Left, Left, Red)]
  {
    assert var x, y := Fixup(Up(Left, 7, Red, 125, (), Nil, Up(Left, 4, Black, 250, (), Node(2, Red, 500, (), Nil, Nil), Up(Left, 1, Black, 1000, (), Node(3, Black, 1500, (), Node(6, Red, 1250, (), Nil, Nil), Node(5, Red, 1750, (), Nil, Nil)), Top))), Node(8, Red, 65, (), Nil, Nil), [SearchNode(1000, Left, false), SearchNode(250, Left, false), SearchNode(125, Left, true)]), Fixup(Up(Left, 1, Black, 1000, (), Node(3, Black, 1500, (), Node(6, Red, 1250, (), Nil, Nil), Node(5, Red, 1750, (), Nil, Nil)), Top), Node(4, Red, 250, (), Node(7, Black, 125, (), Node(8, Red, 65, (), Nil, Nil), Nil), Node(2, Black, 500, (), Nil, Nil)), [SearchNode(1000, Left, false), SearchNode(250, Left, false), SearchNode(125, Left, true), FixupTree(Left, Left, Red)]); x.0 == y.0 && x.1 == y.1;
  }

  lemma Spec65(allowDup: bool)
    ensures SpecInsert(T7, 65, (), 8, allowDup) == Inserted(T8, [SearchNode(1000, Left, false), SearchNode(250, Left, false), SearchNode(125, Left, true), FixupTree(Left, Left, Red)])
  {
    Descent65(allowDup);
    Fixup65();
  }

  lemma Act65(allowDup: bool)
    ensures SpecAct(T7, 8, allowDup, Insertion[7]) == Done(T8, 9, [SearchNode(1000, Left, false), SearchNode(250, Left, false), SearchNode(125, Left, true), FixupTree(Left, Left, Red)])
  {
    Spec65(allowDup);
  }

  lemma Check65()
    ensures Follow(Insertion[7].steps, Trace(true, [SearchNode(1000, Left, false), SearchNode(250, Left, false), SearchNode(125, Left, true), FixupTree(Left, Left, Red)])) == Success(())
  {
    assert Insertion[7].steps == DescribeAll([SearchNode(1000, Left, false), SearchNode(250, Left, false), SearchNode(125, Left, true), FixupTree(Left, Left, Red)]);
    DescribedFollows([SearchNode(1000, Left, false), SearchNode(250, Left, false), SearchNode(125, Left, true), FixupTree(Left, Left, Red)]);
  }

  lemma Descent2000(allowDup: bool)
    ensures SpecInsert(T8, 2000, (), 9, allowDup) == var (r, es) := Fixup(Up(Right, 5, Red, 1750, (), Nil, Up(Right, 3, Black, 1500, (), Node(6, Red, 1250, (), Nil, Nil), Up(Right, 1, Black, 1000, (), Node(4, Red, 250, (), Node(7, Black, 125, (), Node(8, Red, 65, (), Nil, Nil), Nil), Node(2, Black, 500, (), Nil, Nil)), Top))), Node(9, Red, 2000, (), Nil, Nil), [SearchNode(1000, Right, false), SearchNode(1500, Right, false), SearchNode(1750, Right, true)]); Inserted(r, es)
  {
  }

  lemma Fixup2000()
    ensures var x := Fixup(Up(Right, 5, Red, 1750, (), Nil, Up(Right, 3, Black, 1500, (), Node(6, Red, 1250, (), Nil, Nil), Up(Right, 1, Black, 1000, (), Node(4, Red, 250, (), Node(7, Black, 125, (), Node(8, Red, 65, (), Nil, Nil), Nil), Node(2, Black, 500, (), Nil, Nil)), Top))), Node(9, Red, 2000, (), Nil, Nil), [SearchNode(1000, Right, false), SearchNode(1500, Right, false), SearchNode(1750, Right, true)]); x.0 == T9 && x.1 == [SearchNode(1000, Right, false), SearchNode(1500, Right, false), SearchNode(1750, Right, true), FixupTree(Right, Right, Red)]
  {
    assert var x, y := Fixup(Up(Right, 5, Red, 1750, (), Nil, Up(Right, 3, Black, 1500, (), Node(6, Red, 1250, (), Nil, Nil), Up(Right, 1, Black, 1000, (), Node(4, Red, 250, (), Node(7, Black, 125, (), Node(8, Red, 65, (), Nil, Nil), Nil), Node(2, Black, 500, (), Nil, Nil)), Top))), Node(9, Red, 2000, (), Nil, Nil), [SearchNode(1000, Right, false), SearchNode(1500, Right, false), SearchNode(1750, Right, true)]), Fixup(Up(Right, 1, Black, 1000, (), Node(4, Red, 250, (), Node(7, Black, 125, (), Node(8, Red, 65, (), Nil, Nil), Nil), Node(2, Black, 500, (), Nil, Nil)), Top), Node(3, Red, 1500, (), Node(6, Black, 1250, (), Nil, Nil), Node(5, Black, 1750, (), Nil, Node(9, Red, 2000, (), Nil, Nil))), [SearchNode(1000, Right, false), SearchNode(1500, Right, false), SearchNode(1750, Right, true), FixupTree(Right, Right, Red)]); x.0 == y.0 && x.1 == y.1;
  }

  lemma Spec2000(allowDup: bool)
    ensures SpecInsert(T8, 2000, (), 9, allowDup) == Inserted(T9, [SearchNode(1000, Right, false), SearchNode(1500, Right, false), SearchNode(1750, Right, true), FixupTree(Right, Right, Red)])
  {
    Descent2000(allowDup);
    Fixup2000();
  }

  lemma Act2000(allowDup: bool)
    ensures SpecAct(T8, 9, allowDup, Insertion[8]) == Done(T9, 10, [SearchNode(1000, Right, false), SearchNode(1500, Right, false), SearchNode(1750, Right, true), FixupTree(Right, Right, Red)])
  {
    Spec2000(allowDup);
  }

  lemma Check2000()
    ensures Follow(Insertion[8].steps, Trace(true, [SearchNode(1000, Right, false), SearchNode(1500, Right, false), SearchNode(1750, Right, true), FixupTree(Right, Right, Red)])) == Success(())
  {
    assert Insertion[8].steps == DescribeAll([SearchNode(1000, Right, false), SearchNode(1500, Right, false), SearchNode(1750, Right, true), FixupTree(Right, Right, Red)]);
    DescribedFollows([SearchNode(1000, Right, false), SearchNode(1500, Right, false), SearchNode(1750, Right, true), FixupTree(Right, Right, Red)]);
  }

  lemma Descent95(allowDup: bool)
    ensures SpecInsert(T9, 95, (), 10, allowDup) == var (r, es) := Fixup(Up(Right, 8, Red, 65, (), Nil, Up(Left, 7, Black, 125, (), Nil, Up(Left, 4, Red, 250, (), Node(2, Black, 500, (), Nil, Nil), Up(Left, 1, Black, 1000, (), Node(3, Red, 1500, (), Node(6, Black, 1250, (), Nil, Nil), Node(5, Black, 1750, (), Nil, Node(9, Red, 2000, (), Nil, Nil))), Top)))), Node(10, Red, 95, (), Nil, Nil), [SearchNode(1000, Left, false), SearchNode(250, Left, false), SearchNode(125, Left, false), SearchNode(65, Right, true)]); Inserted(r, es)
  {
  }

  lemma Fixup95()
    ensures var x := Fixup(Up(Right, 8, Red, 65, (), Nil, Up(Left, 7, Black, 125, (), Nil, Up(Left, 4, Red, 250, (), Node(2, Black, 500, (), Nil, Nil), Up(Left, 1, Black, 1000, (), Node(3, Red, 1500, (), Node(6, Black, 1250, (), Nil, Nil), Node(5, Black, 1750, (), Nil, Node(9, Red, 2000, (), Nil, Nil))), Top)))), Node(10, Red, 95, (), Nil, Nil), [SearchNode(1000, Left, false), SearchNode(250, Left, false), SearchNode(125, Left, false), SearchNode(65, Right, true)]); x.0 == T10 && x.1 == [SearchNode(1000, Left, false), SearchNode(250, Left, false), SearchNode(125, Left, false), SearchNode(65, Right, true), FixupTree(Left, Right, Black)]
  {
  }

  lemma Spec95(allowDup: bool)
    ensures SpecInsert(T9, 95, (), 10, allowDup) == Inserted(T10, [SearchNode(1000, Left, false), SearchNode(250, Left, false), SearchNode(125, Left, false), SearchNode(65, Right, true), FixupTree(Left, Right, Black)])
  {
    Descent95(allowDup);
    Fixup95();
  }

  lemma Act95(allowDup: bool)
    ensures SpecAct(T9, 10, allowDup, Insertion[9]) == Done(T10, 11, [SearchNode(1000, Left, false), SearchNode(250, Left, false), SearchNode(125, Left, false), SearchNode(65, Right, true), FixupTree(Left, Right, Black)])
  {
    Spec95(allowDup);
  }

  lemma Check95()
    ensures Follow(Insertion[9].steps, Trace(true, [SearchNode(1000, Left, false), SearchNode(250, Left, false), SearchNode(125, Left, false), SearchNode(65, Right, true), FixupTree(Left, Right, Black)])) == Success(())
  {
    assert Insertion[9].steps == DescribeAll([SearchNode(1000, Left, false), SearchNode(250, Left, false), SearchNode(125, Left, false), SearchNode(65, Right, true), FixupTree(Left, Right, Black)]);
    DescribedFollows([SearchNode(1000, Left, false), SearchNode(250, Left, false), SearchNode(125, Left, false), SearchNode(65, Right, true), FixupTree(Left, Right, Black)]);
  }

  lemma Descent2500(allowDup: bool)
    ensures SpecInsert(T10, 2500, (), 11, allowDup) == var (r, es) := Fixup(Up(Right, 9, Red, 2000, (), Nil, Up(Right, 5, Black, 1750, (), Nil, Up(Right, 3, Red, 1500, (), Node(6, Black, 1250, (), Nil, Nil), Up(Right, 1, Black, 1000, (), Node(4, Red, 250, (), Node(10, Black, 95, (), Node(8, Red, 65, (), Nil, Nil), Node(7, Red, 125, (), Nil, Nil)), Node(2, Black, 500, (), Nil, Nil)), Top)))), Node(11, Red, 2500, (), Nil, Nil), [SearchNode(1000, Right, false), SearchNode(1500, Right, false), SearchNode(1750, Right, false), SearchNode(2000, Right, true)]); Inserted(r, es)
  {
  }

  lemma Fixup2500()
    ensures var x := Fixup(Up(Right, 9, Red, 2000, (), Nil, Up(Right, 5, Black, 1750, (), Nil, Up(Right, 3, Red, 1500, (), Node(6, Black, 1250, (), Nil, Nil), Up(Right, 1, Black, 1000, (), Node(4, Red, 250, (), Node(10, Black, 95, (), Node(8, Red, 65, (), Nil, Nil), Node(7, Red, 125, (), Nil, Nil)), Node(2, Black, 500, (), Nil, Nil)), Top)))), Node(11, Red, 2500, (), Nil, Nil), [SearchNode(1000, Right, false), SearchNode(1500, Right, false), SearchNode(1750, Right, false), SearchNode(2000, Right, true)]); x.0 == T11 && x.1 == [SearchNode(1000, Right, false), SearchNode(1500, Right, false), SearchNode(1750, Right, false), SearchNode(2000, Right, true), FixupTree(Right, Right, Black)]
  {
  }

  lemma Spec2500(allowDup: bool)
    ensures SpecInsert(T10, 2500, (), 11, allowDup) == Inserted(T11, [SearchNode(1000, Right, false), SearchNode(1500, Right, false), SearchNode(1750, Right, false), SearchNode(2000, Right, true), FixupTree(Right, Right, Black)])
  {
    Descent2500(allowDup);
    Fixup2500();
  }

  lemma Act2500(allowDup: bool)
    ensures SpecAct(T10, 11, allowDup, Insertion[10]) == Done(T11, 12, [SearchNode(1000, Right, false), SearchNode(1500, Right, false), SearchNode(1750, Right, false), SearchNode(2000, Right, true), FixupTree(Right, Right, Black)])
  {
    Spec2500(allowDup);
  }

  lemma Check2500()
    ensures Follow(Insertion[10].steps, Trace(true, [SearchNode(1000, Right, false), SearchNode(1500, Right, false), SearchNode(1750, Right, false), SearchNode(2000, Right, true), FixupTree(Right, Right, Black)])) == Success(())
  {
    assert Insertion[10].steps == DescribeAll([SearchNode(1000, Right, false), SearchNode(1500, Right, false), SearchNode(1750, Right, false), SearchNode(2000, Right, true), FixupTree(Right, Right, Black)]);
    DescribedFollows([SearchNode(1000, Right, false), SearchNode(1500, Right, false), SearchNode(1750, Right, false), SearchNode(2000, Right, true), FixupTree(Right, Right, Black)]);
  }

  lemma Descent350(allowDup: bool)
    ensures SpecInsert(T11, 350, (), 12, allowDup) == var (r, es) := Fixup(Up(Left, 2, Black, 500, (), Nil, Up(Right, 4, Red, 250, (), Node(10, Black, 95, (), Node(8, Red, 65, (), Nil, Nil), Node(7, Red, 125, (), Nil, Nil)), Up(Left, 1, Black, 1000, (), Node(3, Red, 1500, (), Node(6, Black, 1250, (), Nil, Nil), Node(9, Black, 2000, (), Node(5, Red, 1750, (), Nil, Nil), Node(11, Red, 2500, (), Nil, Nil))), Top))), Node(12, Red, 350, (), Nil, Nil), [SearchNode(1000, Left, false), SearchNode(250, Right, false), SearchNode(500, Left, true)]); Inserted(r, es)
  {
  }

  lemma Fixup350()
    ensures var x := Fixup(Up(Left, 2, Black, 500, (), Nil, Up(Right, 4, Red, 250, (), Node(10, Black, 95, (), Node(8, Red, 65, (), Nil, Nil), Node(7, Red, 125, (), Nil, Nil)), Up(Left, 1, Black, 1000, (), Node(3, Red, 1500, (), Node(6, Black, 1250, (), Nil, Nil), Node(9, Black, 2000, (), Node(5, Red, 1750, (), Nil, Nil), Node(11, Red, 2500, (), Nil, Nil))), Top))), Node(12, Red, 350, (), Nil, Nil), [SearchNode(1000, Left, false), SearchNode(250, Right, false), SearchNode(500, Left, true)]); x.0 == T12 && x.1 == [SearchNode(1000, Left, false), SearchNode(250, Right, false), SearchNode(500, Left, true)]
  {
  }

  lemma Spec350(allowDup: bool)
    ensures SpecInsert(T11, 350, (), 12, allowDup) == Inserted(T12, [SearchNode(1000, Left, false), SearchNode(250, Right, false), SearchNode(500, Left, true)])
  {
    Descent350(allowDup);
    Fixup350();
  }

  lemma Act350(allowDup: bool)
    ensures SpecAct(T11, 12, allowDup, Insertion[11]) == Done(T12, 13, [SearchNode(1000, Left, false), SearchNode(250, Right, false), SearchNode(500, Left, true)])
  {
    Spec350(allowDup);
  }

  lemma Check350()
    ensures Follow(Insertion[11].steps, Trace(true, [SearchNode(1000, Left, false), SearchNode(250, Right, false), SearchNode(500, Left, true)])) == Success(())
  {
    assert Insertion[11].steps == DescribeAll([SearchNode(1000, Left, false), SearchNode(250, Right, false), SearchNode(500, Left, true)]);
    DescribedFollows([SearchNode(1000, Left, false), SearchNode(250, Right, false), SearchNode(500, Left, true)]);
  }

  lemma Descent750(allowDup: bool)
    ensures SpecInsert(T12, 750, (), 13, allowDup) == var (r, es) := Fixup(Up(Right, 2, Black, 500, (), Node(12, Red, 350, (), Nil, Nil), Up(Right, 4, Red, 250, (), Node(10, Black, 95, (), Node(8, Red, 65, (), Nil, Nil), Node(7, Red, 125, (), Nil, Nil)), Up(Left, 1, Black, 1000, (), Node(3, Red, 1500, (), Node(6, Black, 1250, (), Nil, Nil), Node(9, Black, 2000, (), Node(5, Red, 1750, (), Nil, Nil), Node(11, Red, 2500, (), Nil, Nil))), Top))), Node(13, Red, 750, (), Nil, Nil), [SearchNode(1000, Left, false), SearchNode(250, Right, false), SearchNode(500, Right, true)]); Inserted(r, es)
  {
  }

  lemma Fixup750()
    ensures var x := Fixup(Up(Right, 2, Black, 500, (), Node(12, Red, 350, (), Nil, Nil), Up(Right, 4, Red, 250, (), Node(10, Black, 95, (), Node(8, Red, 65, (), Nil, Nil), Node(7, Red, 125, (), Nil, Nil)), Up(Left, 1, Black, 1000, (), Node(3, Red, 1500, (), Node(6, Black, 1250, (), Nil, Nil), Node(9, Black, 2000, (), Node(5, Red, 1750, (), Nil, Nil), Node(11, Red, 2500, (), Nil, Nil))), Top))), Node(13, Red, 750, (), Nil, Nil), [SearchNode(1000, Left, false), SearchNode(250, Right, false), SearchNode(500, Right, true)]); x.0 == T13 && x.1 == [SearchNode(1000, Left, false), SearchNode(250, Right, false), SearchNode(500, Right, true)]
  {
  }

  lemma Spec750(allowDup: bool)
    ensures SpecInsert(T12, 750, (), 13, allowDup) == Inserted(T13, [SearchNode(1000, Left, false), SearchNode(250, Right, false), SearchNode(500, Right, true)])
  {
    Descent750(allowDup);
    Fixup750();
  }

  lemma Act750(allowDup: bool)
    ensures SpecAct(T12, 13, allowDup, Insertion[12]) == Done(T13, 14, [SearchNode(1000, Left, false), SearchNode(250, Right, false), SearchNode(500, Right, true)])
  {
    Spec750(allowDup);
  }

  lemma Check750()
    ensures Follow(Insertion[12].steps, Trace(true, [SearchNode(1000, Left, false), SearchNode(250, Right, false), SearchNode(500, Right, true)])) == Success(())
  {
    assert Insertion[12].steps == DescribeAll([SearchNode(1000, Left, false), SearchNode(250, Right, false), SearchNode(500, Right, true)]);
    DescribedFollows([SearchNode(1000, Left, false), SearchNode(250, Right, false), SearchNode(500, Right, true)]);
  }

  lemma Descent400(allowDup: bool)
    ensures SpecInsert(T13, 400, (), 14, allowDup) == var (r, es) := Fixup(Up(Right, 12, Red, 350, (), Nil, Up(Left, 2, Black, 500, (), Node(13, Red, 750, (), Nil, Nil), Up(Right, 4, Red, 250, (), Node(10, Black, 95, (), Node(8, Red, 65, (), Nil, Nil), Node(7, Red, 125, (), Nil, Nil)), Up(Left, 1, Black, 1000, (), Node(3, Red, 1500, (), Node(6, Black, 1250, (), Nil, Nil), Node(9, Black, 2000, (), Node(5, Red, 1750, (), Nil, Nil), Node(11, Red, 2500, (), Nil, Nil))), Top)))), Node(14, Red, 400, (), Nil, Nil), [SearchNode(1000, Left, false), SearchNode(250, Right, false), SearchNode(500, Left, false), SearchNode(350, Right, true)]); Inserted(r, es)
  {
  }

  lemma Fixup400()
    ensures var x := Fixup(Up(Right, 12, Red, 350, (), Nil, Up(Left, 2, Black, 500, (), Node(13, Red, 750, (), Nil, Nil), Up(Right, 4, Red, 250, (), Node(10, Black, 95, (), Node(8, Red, 65, (), Nil, Nil), Node(7, Red, 125, (), Nil, Nil)), Up(Left, 1, Black, 1000, (), Node(3, Red, 1500, (), Node(6, Black, 1250, (), Nil, Nil), Node(9, Black, 2000, (), Node(5, Red, 1750, (), Nil, Nil), Node(11, Red, 2500, (), Nil, Nil))), Top)))), Node(14, Red, 400, (), Nil, Nil), [SearchNode(1000, Left, false), SearchNode(250, Right, false), SearchNode(500, Left, false), SearchNode(350, Right, true)]); x.0 == T14 && x.1 == [SearchNode(1000, Left, false), SearchNode(250, Right, false), SearchNode(500, Left, false), SearchNode(350, Right, true), FixupTree(Left, Right, Red), FixupTree(Left, Right, Red), BlackenRootNode]
  {
    assert var x, y := Fixup(Up(Right, 12, Red, 350, (), Nil, Up(Left, 2, Black, 500, (), Node(13, Red, 750, (), Nil, Nil), Up(Right, 4, Red, 250, (), Node(10, Black, 95, (), Node(8, Red, 65, (), Nil, Nil), Node(7, Red, 125, (), Nil, Nil)), Up(Left, 1, Black, 1000, (), Node(3, Red, 1500, (), Node(6, Black, 1250, (), Nil, Nil), Node(9, Black, 2000, (), Node(5, Red, 1750, (), Nil, Nil), Node(11, Red, 2500, (), Nil, Nil))), Top)))), Node(14, Red, 400, (), Nil, Nil), [SearchNode(1000, Left, false), SearchNode(250, Right, false), SearchNode(500, Left, false), SearchNode(350, Right, true)]), Fixup(Up(Right, 4, Red, 250, (), Node(10, Black, 95, (), Node(8, Red, 65, (), Nil, Nil), Node(7, Red, 125, (), Nil, Nil)), Up(Left, 1, Black, 1000, (), Node(3, Red, 1500, (), Node(6, Black, 1250, (), Nil, Nil), Node(9, Black, 2000, (), Node(5, Red, 1750, (), Nil, Nil), Node(11, Red, 2500, (), Nil, Nil))), Top)), Node(2, Red, 500, (), Node(12, Black, 350, (), Nil, Node(14, Red, 400, (), Nil, Nil)), Node(13, Black, 750, (), Nil, Nil)), [SearchNode(1000, Left, false), SearchNode(250, Right, false), SearchNode(500, Left, false), SearchNode(350, Right, true), FixupTree(Left, Right, Red)]); x.0 == y.0 && x.1 == y.1;
  }

  lemma Spec400(allowDup: bool)
    ensures SpecInsert(T13, 400, (), 14, allowDup) == Inserted(T14, [SearchNode(1000, Left, false), SearchNode(250, Right, false), SearchNode(500, Left, false), SearchNode(350, Right, true), FixupTree(Left, Right, Red), FixupTree(Left, Right, Red), BlackenRootNode])
  {
    Descent400(allowDup);
    Fixup400();
  }

  lemma Act400(allowDup: bool)
    ensures SpecAct(T13, 14, allowDup, Insertion[13]) == Done(T14, 15, [SearchNode(1000, Left, false), SearchNode(250, Right, false), SearchNode(500, Left, false), SearchNode(350, Right, true), FixupTree(Left, Right, Red), FixupTree(Left, Right, Red), BlackenRootNode])
  {
    Spec400(allowDup);
  }

  lemma Check400()
    ensures Follow(Insertion[13].steps, Trace(true, [SearchNode(1000, Left, false), SearchNode(250, Right, false), SearchNode(500, Left, false), SearchNode(350, Right, true), FixupTree(Left, Right, Red), FixupTree(Left, Right, Red), BlackenRootNode])) == Success(())
  {
    assert Insertion[13].steps == DescribeAll([SearchNode(1000, Left, false), SearchNode(250, Right, false), SearchNode(500, Left, false), SearchNode(350, Right, true), FixupTree(Left, Right, Red), FixupTree(Left, Right, Red), BlackenRootNode]);
    DescribedFollows([SearchNode(1000, Left, false), SearchNode(250, Right, false), SearchNode(500, Left, false), SearchNode(350, Right, true), FixupTree(Left, Right, Red), FixupTree(Left, Right, Red), BlackenRootNode]);
  }

  lemma Descent380(allowDup: bool)
    ensures SpecInsert(T14, 380, (), 15, allowDup) == var (r, es) := Fixup(Up(Left, 14, Red, 400, (), Nil, Up(Right, 12, Black, 350, (), Nil, Up(Left, 2, Red, 500, (), Node(13, Black, 750, (), Nil, Nil), Up(Right, 4, Black, 250, (), Node(10, Black, 95, (), Node(8, Red, 65, (), Nil, Nil), Node(7, Red, 125, (), Nil, Nil)), Up(Left, 1, Black, 1000, (), Node(3, Black, 1500, (), Node(6, Black, 1250, (), Nil, Nil), Node(9, Black, 2000, (), Node(5, Red, 1750, (), Nil, Nil), Node(11, Red, 2500, (), Nil, Nil))), Top))))), Node(15, Red, 380, (), Nil, Nil), [SearchNode(1000, Left, false), SearchNode(250, Right, false), SearchNode(500, Left, false), SearchNode(350, Right, false), SearchNode(400, Left, true)]); Inserted(r, es)
  {
  }

  lemma Fixup380()
    ensures var x := Fixup(Up(Left, 14, Red, 400, (), Nil, Up(Right, 12, Black, 350, (), Nil, Up(Left, 2, Red, 500, (), Node(13, Black, 750, (), Nil, Nil), Up(Right, 4, Black, 250, (), Node(10, Black, 95, (), Node(8, Red, 65, (), Nil, Nil), Node(7, Red, 125, (), Nil, Nil)), Up(Left, 1, Black, 1000, (), Node(3, Black, 1500, (), Node(6, Black, 1250, (), Nil, Nil), Node(9, Black, 2000, (), Node(5, Red, 1750, (), Nil, Nil), Node(11, Red, 2500, (), Nil, Nil))), Top))))), Node(15, Red, 380, (), Nil, Nil), [SearchNode(1000, Left, false), SearchNode(250, Right, false), SearchNode(500, Left, false), SearchNode(350, Right, false), SearchNode(400, Left, true)]); x.0 == T15 && x.1 == [SearchNode(1000, Left, false), SearchNode(250, Right, false), SearchNode(500, Left, false), SearchNode(350, Right, false), SearchNode(400, Left, true), FixupTree(Right, Left, Black)]
  {
  }

  lemma Spec380(allowDup: bool)
    ensures SpecInsert(T14, 380, (), 15, allowDup) == Inserted(T15, [SearchNode(1000, Left, false), SearchNode(250, Right, false), SearchNode(500, Left, false), SearchNode(350, Right, false), SearchNode(400, Left, true), FixupTree(Right, Left, Black)])
  {
    Descent380(allowDup);
    Fixup380();
  }

  lemma Act380(allowDup: bool)
    ensures SpecAct(T14, 15, allowDup, Insertion[14]) == Done(T15, 16, [SearchNode(1000, Left, false), SearchNode(250, Right, false), SearchNode(500, Left, false), SearchNode(350, Right, false), SearchNode(400, Left, true), FixupTree(Right, Left, Black)])
  {
    Spec380(allowDup);
  }

  lemma Check380()
    ensures Follow(Insertion[14].steps, Trace(true, [SearchNode(1000, Left, false), SearchNode(250, Right, false), SearchNode(500, Left, false), SearchNode(350, Right, false), SearchNode(400, Left, true), FixupTree(Right, Left, Black)])) == Success(())
  {
    assert Insertion[14].steps == DescribeAll([SearchNode(1000, Left, false), SearchNode(250, Right, false), SearchNode(500, Left, false), SearchNode(350, Right, false), SearchNode(400, Left, true), FixupTree(Right, Left, Black)]);
    DescribedFollows([SearchNode(1000, Left, false), SearchNode(250, Right, false), SearchNode(500, Left, false), SearchNode(350, Right, false), SearchNode(400, Left, true), FixupTree(Right, Left, Black)]);
  }

  lemma Descent390(allowDup: bool)
    ensures SpecInsert(T15, 390, (), 16, allowDup) == var (r, es) := Fixup(Up(Left, 14, Red, 400, (), Nil, Up(Right, 15, Black, 380, (), Node(12, Red, 350, (), Nil, Nil), Up(Left, 2, Red, 500, (), Node(13, Black, 750, (), Nil, Nil), Up(Right, 4, Black, 250, (), Node(10, Black, 95, (), Node(8, Red, 65, (), Nil, Nil), Node(7, Red, 125, (), Nil, Nil)), Up(Left, 1, Black, 1000, (), Node(3, Black, 1500, (), Node(6, Black, 1250, (), Nil, Nil), Node(9, Black, 2000, (), Node(5, Red, 1750, (), Nil, Nil), Node(11, Red, 2500, (), Nil, Nil))), Top))))), Node(16, Red, 390, (), Nil, Nil), [SearchNode(1000, Left, false), SearchNode(250, Right, false), SearchNode(500, Left, false), SearchNode(380, Right, false), SearchNode(400, Left, true)]); Inserted(r, es)
  {
  }

  lemma Fixup390()
    ensures var x := Fixup(Up(Left, 14, Red, 400, (), Nil, Up(Right, 15, Black, 380, (), Node(12, Red, 350, (), Nil, Nil), Up(Left, 2, Red, 500, (), Node(13, Black, 750, (), Nil, Nil), Up(Right, 4, Black, 250, (), Node(10, Black, 95, (), Node(8, Red, 65, (), Nil, Nil), Node(7, Red, 125, (), Nil, Nil)), Up(Left, 1, Black, 1000, (), Node(3, Black, 1500, (), Node(6, Black, 1250, (), Nil, Nil), Node(9, Black, 2000, (), Node(5, Red, 1750, (), Nil, Nil), Node(11, Red, 2500, (), Nil, Nil))), Top))))), Node(16, Red, 390, (), Nil, Nil), [SearchNode(1000, Left, false), SearchNode(250, Right, false), SearchNode(500, Left, false), SearchNode(380, Right, false), SearchNode(400, Left, true)]); x.0 == T16 && x.1 == [SearchNode(1000, Left, false), SearchNode(250, Right, false), SearchNode(500, Left, false), SearchNode(380, Right, false), SearchNode(400, Left, true), FixupTree(Right, Left, Red), FixupTree(Right, Left, Black)]
  {
    assert var x, y := Fixup(Up(Left, 14, Red, 400, (), Nil, Up(Right, 15, Black, 380, (), Node(12, Red, 350, (), Nil, Nil), Up(Left, 2, Red, 500, (), Node(13, Black, 750, (), Nil, Nil), Up(Right, 4, Black, 250, (), Node(10, Black, 95, (), Node(8, Red, 65, (), Nil, Nil), Node(7, Red, 125, (), Nil, Nil)), Up(Left, 1, Black, 1000, (), Node(3, Black, 1500, (), Node(6, Black, 1250, (), Nil, Nil), Node(9, Black, 2000, (), Node(5, Red, 1750, (), Nil, Nil), Node(11, Red, 2500, (), Nil, Nil))), Top))))), Node(16, Red, 390, (), Nil, Nil), [SearchNode(1000, Left, false), SearchNode(250, Right, false), SearchNode(500, Left, false), SearchNode(380, Right, false), SearchNode(400, Left, true)]), Fixup(Up(Left, 2, Red, 500, (), Node(13, Black, 750, (), Nil, Nil), Up(Right, 4, Black, 250, (), Node(10, Black, 95, (), Node(8, Red, 65, (), Nil, Nil), Node(7, Red, 125, (), Nil, Nil)), Up(Left, 1, Black, 1000, (), Node(3, Black, 1500, (), Node(6, Black, 1250, (), Nil, Nil), Node(9, Black, 2000, (), Node(5, Red, 1750, (), Nil, Nil), Node(11, Red, 2500, (), Nil, Nil))), Top))), Node(15, Red, 380, (), Node(12, Black, 350, (), Nil, Nil), Node(14, Black, 400, (), Node(16, Red, 390, (), Nil, Nil), Nil)), [SearchNode(1000, Left, false), SearchNode(250, Right, false), SearchNode(500, Left, false), SearchNode(380, Right, false), SearchNode(400, Left, true), FixupTree(Right, Left, Red)]); x.0 == y.0 && x.1 == y.1;
  }

  lemma Spec390(allowDup: bool)
    ensures SpecInsert(T15, 390, (), 16, allowDup) == Inserted(T16, [SearchNode(1000, Left, false), SearchNode(250, Right, false), SearchNode(500, Left, false), SearchNode(380, Right, false), SearchNode(400, Left, true), FixupTree(Right, Left, Red), FixupTree(Right, Left, Black)])
  {
    Descent390(allowDup);
    Fixup390();
  }

  lemma Act390(allowDup: bool)
    ensures SpecAct(T15, 16, allowDup, Insertion[15]) == Done(T16, 17, [SearchNode(1000, Left, false), SearchNode(250, Right, false), SearchNode(500, Left, false), SearchNode(380, Right, false), SearchNode(400, Left, true), FixupTree(Right, Left, Red), FixupTree(Right, Left, Black)])
  {
    Spec390(allowDup);
  }

  lemma Check390()
    ensures Follow(Insertion[15].steps, Trace(true, [SearchNode(1000, Left, false), SearchNode(250, Right, false), SearchNode(500, Left, false), SearchNode(380, Right, false), SearchNode(400, Left, true), FixupTree(Right, Left, Red), FixupTree(Right, Left, Black)])) == Success(())
  {
    assert Insertion[15].steps == DescribeAll([SearchNode(1000, Left, false), SearchNode(250, Right, false), SearchNode(500, Left, false), SearchNode(380, Right, false), SearchNode(400, Left, true), FixupTree(Right, Left, Red), FixupTree(Right, Left, Black)]);
    DescribedFollows([SearchNode(1000, Left, false), SearchNode(250, Right, false), SearchNode(500, Left, false), SearchNode(380, Right, false), SearchNode(400, Left, true), FixupTree(Right, Left, Red), FixupTree(Right, Left, Black)]);
  }

  lemma DescentDuplicate()
    ensures SpecInsert(T16, 1250, (), 17, true) == var (r, es) := Fixup(Up(Left, 6, Black, 1250, (), Nil, Up(Left, 3, Black, 1500, (), Node(9, Black, 2000, (), Node(5, Red, 1750, (), Nil, Nil), Node(11, Red, 2500, (), Nil, Nil)), Up(Right, 1, Black, 1000, (), Node(15, Black, 380, (), Node(4, Red, 250, (), Node(10, Black, 95, (), Node(8, Red, 65, (), Nil, Nil), Node(7, Red, 125, (), Nil, Nil)), Node(12, Black, 350, (), Nil, Nil)), Node(2, Red, 500, (), Node(14, Black, 400, (), Node(16, Red, 390, (), Nil, Nil), Nil), Node(13, Black, 750, (), Nil, Nil))), Top))), Node(17, Red, 1250, (), Nil, Nil), [SearchNode(1000, Right, false), SearchNode(1500, Left, false), SearchNode(1250, Left, true)]); Inserted(r, es)
  {
  }

  lemma FixupDuplicate()
    ensures var x := Fixup(Up(Left, 6, Black, 1250, (), Nil, Up(Left, 3, Black, 1500, (), Node(9, Black, 2000, (), Node(5, Red, 1750, (), Nil, Nil), Node(11, Red, 2500, (), Nil, Nil)), Up(Right, 1, Black, 1000, (), Node(15, Black, 380, (), Node(4, Red, 250, (), Node(10, Black, 95, (), Node(8, Red, 65, (), Nil, Nil), Node(7, Red, 125, (), Nil, Nil)), Node(12, Black, 350, (), Nil, Nil)), Node(2, Red, 500, (), Node(14, Black, 400, (), Node(16, Red, 390, (), Nil, Nil), Nil), Node(13, Black, 750, (), Nil, Nil))), Top))), Node(17, Red, 1250, (), Nil, Nil), [SearchNode(1000, Right, false), SearchNode(1500, Left, false), SearchNode(1250, Left, true)]); x.0 == T17 && x.1 == [SearchNode(1000, Right, false), SearchNode(1500, Left, false), SearchNode(1250, Left, true)]
  {
  }

  /** With duplicates allowed, the second 1250 goes down the left of the first and becomes node 17. */
  lemma ActDuplicateAllowed()
    ensures SpecAct(T16, 17, true, DuplicateKey) == Done(T17, 18, [SearchNode(1000, Right, false), SearchNode(1500, Left, false), SearchNode(1250, Left, true)])
  {
    DescentDuplicate();
    FixupDuplicate();
  }

  lemma CheckDuplicate()
    ensures Follow(DuplicateKey.steps, Trace(true, [SearchNode(1000, Right, false), SearchNode(1500, Left, false), SearchNode(1250, Left, true)])) == Success(())
  {
    assert DuplicateKey.steps == DescribeAll([SearchNode(1000, Right, false), SearchNode(1500, Left, false), SearchNode(1250, Left, true)]);
    DescribedFollows([SearchNode(1000, Right, false), SearchNode(1500, Left, false), SearchNode(1250, Left, true)]);
  }

  /** With duplicates refused, the descent stops at the 1250 already present. */
  lemma ActDuplicateRefused()
    ensures SpecAct(T16, 17, false, DuplicateKey) == Raised(Engine(InsertDuplicatedKey(1250)))
  {
    assert SpecInsert(T16, 1250, (), 17, false) == Duplicated(1250, [SearchNode(1000, Right, false), SearchNode(1500, Left, false)]);
  }

  lemma ActSearch400(allowDup: bool)
    ensures SpecAct(T16, 17, allowDup, Search400) == Done(T16, 17, [SearchNode(1000, Left, false), SearchNode(380, Right, false), SearchNode(500, Left, false), MatchNode(400)])
  {
    assert SpecSearch(T16, 400).events == [SearchNode(1000, Left, false), SearchNode(380, Right, false), SearchNode(500, Left, false), MatchNode(400)];
  }

  lemma CheckSearch400()
    ensures Follow(Search400.steps, Trace(true, [SearchNode(1000, Left, false), SearchNode(380, Right, false), SearchNode(500, Left, false), MatchNode(400)])) == Success(())
  {
    assert Search400.steps == DescribeAll([SearchNode(1000, Left, false), SearchNode(380, Right, false), SearchNode(500, Left, false), MatchNode(400)]);
    DescribedFollows([SearchNode(1000, Left, false), SearchNode(380, Right, false), SearchNode(500, Left, false), MatchNode(400)]);
  }

  lemma ActSearch450(allowDup: bool)
    ensures SpecAct(T16, 17, allowDup, Search450) == Done(T16, 17, [SearchNode(1000, Left, false), SearchNode(380, Right, false), SearchNode(500, Left, false), SearchNode(400, Right, false), UnmatchNode])
  {
    assert SpecSearch(T16, 450).events == [SearchNode(1000, Left, false), SearchNode(380, Right, false), SearchNode(500, Left, false), SearchNode(400, Right, false), UnmatchNode];
  }

  lemma CheckSearch450()
    ensures Follow(Search450.steps, Trace(true, [SearchNode(1000, Left, false), SearchNode(380, Right, false), SearchNode(500, Left, false), SearchNode(400, Right, false), UnmatchNode])) == Success(())
  {
    assert Search450.steps == DescribeAll([SearchNode(1000, Left, false), SearchNode(380, Right, false), SearchNode(500, Left, false), SearchNode(400, Right, false), UnmatchNode]);
    DescribedFollows([SearchNode(1000, Left, false), SearchNode(380, Right, false), SearchNode(500, Left, false), SearchNode(400, Right, false), UnmatchNode]);
  }

  /** Running from T0 performs action 0 (insert 1000) and continues from T1. */
  lemma InsertionStep0(allowDup: bool, acts: seq<Action>)
    requires 0 < |acts| && acts[0] == Insertion[0]
    ensures SpecRun(T0, 1, allowDup, true, acts[0..]) == SpecRun(T1, 2, allowDup, true, acts[1..])
  {
    var m := |acts|;
    RunHead(T0, 1, allowDup, true, acts, 0, m);
    Act1000(allowDup);
    Check1000();
    assert acts[0..] == acts[0..m] && acts[1..] == acts[1..m];
  }

  /** Running from T1 performs action 1 (insert 500) and continues from T2. */
  lemma InsertionStep1(allowDup: bool, acts: seq<Action>)
    requires 1 < |acts| && acts[1] == Insertion[1]
    ensures SpecRun(T1, 2, allowDup, true, acts[1..]) == SpecRun(T2, 3, allowDup, true, acts[2..])
  {
    var m := |acts|;
    RunHead(T1, 2, allowDup, true, acts, 1, m);
    Act500(allowDup);
    Check500();
    assert acts[1..] == acts[1..m] && acts[2..] == acts[2..m];
  }

  /** Running from T2 performs action 2 (insert 1500) and continues from T3. */
  lemma InsertionStep2(allowDup: bool, acts: seq<Action>)
    requires 2 < |acts| && acts[2] == Insertion[2]
    ensures SpecRun(T2, 3, allowDup, true, acts[2..]) == SpecRun(T3, 4, allowDup, true, acts[3..])
  {
    var m := |acts|;
    RunHead(T2, 3, allowDup, true, acts, 2, m);
    Act1500(allowDup);
    Check1500();
    assert acts[2..] == acts[2..m] && acts[3..] == acts[3..m];
  }

  /** Running from T3 performs action 3 (insert 250) and continues from T4. */
  lemma InsertionStep3(allowDup: bool, acts: seq<Action>)
    requires 3 < |acts| && acts[3] == Insertion[3]
    ensures SpecRun(T3, 4, allowDup, true, acts[3..]) == SpecRun(T4, 5, allowDup, true, acts[4..])
  {
    var m := |acts|;
    RunHead(T3, 4, allowDup, true, acts, 3, m);
    Act250(allowDup);
    Check250();
    assert acts[3..] == acts[3..m] && acts[4..] == acts[4..m];
  }

  /** Running from T4 performs action 4 (insert 1750) and continues from T5. */
  lemma InsertionStep4(allowDup: bool, acts: seq<Action>)
    requires 4 < |acts| && acts[4] == Insertion[4]
    ensures SpecRun(T4, 5, allowDup, true, acts[4..]) == SpecRun(T5, 6, allowDup, true, acts[5..])
  {
    var m := |acts|;
    RunHead(T4, 5, allowDup, true, acts, 4, m);
    Act1750(allowDup);
    Check1750();
    assert acts[4..] == acts[4..m] && acts[5..] == acts[5..m];
  }

  /** Running from T5 performs action 5 (insert 1250) and continues from T6. */
  lemma InsertionStep5(allowDup: bool, acts: seq<Action>)
    requires 5 < |acts| && acts[5] == Insertion[5]
    ensures SpecRun(T5, 6, allowDup, true, acts[5..]) == SpecRun(T6, 7, allowDup, true, acts[6..])
  {
    var m := |acts|;
    RunHead(T5, 6, allowDup, true, acts, 5, m);
    Act1250(allowDup);
    Check1250();
    assert acts[5..] == acts[5..m] && acts[6..] == acts[6..m];
  }

  /** Running from T6 performs action 6 (insert 125) and continues from T7. */
  lemma InsertionStep6(allowDup: bool, acts: seq<Action>)
    requires 6 < |acts| && acts[6] == Insertion[6]
    ensures SpecRun(T6, 7, allowDup, true, acts[6..]) == SpecRun(T7, 8, allowDup, true, acts[7..])
  {
    var m := |acts|;
    RunHead(T6, 7, allowDup, true, acts, 6, m);
    Act125(allowDup);
    Check125();
    assert acts[6..] == acts[6..m] && acts[7..] == acts[7..m];
  }

  /** Running from T7 performs action 7 (insert 65) and continues from T8. */
  lemma InsertionStep7(allowDup: bool, acts: seq<Action>)
    requires 7 < |acts| && acts[7] == Insertion[7]
    ensures SpecRun(T7, 8, allowDup, true, acts[7..]) == SpecRun(T8, 9, allowDup, true, acts[8..])
  {
    var m := |acts|;
    RunHead(T7, 8, allowDup, true, acts, 7, m);
    Act65(allowDup);
    Check65();
    assert acts[7..] == acts[7..m] && acts[8..] == acts[8..m];
  }

  /** Running from T8 performs action 8 (insert 2000) and continues from T9. */
  lemma InsertionStep8(allowDup: bool, acts: seq<Action>)
    requires 8 < |acts| && acts[8] == Insertion[8]
    ensures SpecRun(T8, 9, allowDup, true, acts[8..]) == SpecRun(T9, 10, allowDup, true, acts[9..])
  {
    var m := |acts|;
    RunHead(T8, 9, allowDup, true, acts, 8, m);
    Act2000(allowDup);
    Check2000();
    assert acts[8..] == acts[8..m] && acts[9..] == acts[9..m];
  }

  /** Running from T9 performs action 9 (insert 95) and continues from T10. */
  lemma InsertionStep9(allowDup: bool, acts: seq<Action>)
    requires 9 < |acts| && acts[9] == Insertion[9]
    ensures SpecRun(T9, 10, allowDup, true, acts[9..]) == SpecRun(T10, 11, allowDup, true, acts[10..])
  {
    var m := |acts|;
    RunHead(T9, 10, allowDup, true, acts, 9, m);
    Act95(allowDup);
    Check95();
    assert acts[9..] == acts[9..m] && acts[10..] == acts[10..m];
  }

  /** Running from T10 performs action 10 (insert 2500) and continues from T11. */
  lemma InsertionStep10(allowDup: bool, acts: seq<Action>)
    requires 10 < |acts| && acts[10] == Insertion[10]
    ensures SpecRun(T10, 11, allowDup, true, acts[10..]) == SpecRun(T11, 12, allowDup, true, acts[11..])
  {
    var m := |acts|;
    RunHead(T10, 11, allowDup, true, acts, 10, m);
    Act2500(allowDup);
    Check2500();
    assert acts[10..] == acts[10..m] && acts[11..] == acts[11..m];
  }

  /** Running from T11 performs action 11 (insert 350) and continues from T12. */
  lemma InsertionStep11(allowDup: bool, acts: seq<Action>)
    requires 11 < |acts| && acts[11] == Insertion[11]
    ensures SpecRun(T11, 12, allowDup, true, acts[11..]) == SpecRun(T12, 13, allowDup, true, acts[12..])
  {
    var m := |acts|;
    RunHead(T11, 12, allowDup, true, acts, 11, m);
    Act350(allowDup);
    Check350();
    assert acts[11..] == acts[11..m] && acts[12..] == acts[12..m];
  }

  /** Running from T12 performs action 12 (insert 750) and continues from T13. */
  lemma InsertionStep12(allowDup: bool, acts: seq<Action>)
    requires 12 < |acts| && acts[12] == Insertion[12]
    ensures SpecRun(T12, 13, allowDup, true, acts[12..]) == SpecRun(T13, 14, allowDup, true, acts[13..])
  {
    var m := |acts|;
    RunHead(T12, 13, allowDup, true, acts, 12, m);
    Act750(allowDup);
    Check750();
    assert acts[12..] == acts[12..m] && acts[13..] == acts[13..m];
  }

  /** Running from T13 performs action 13 (insert 400) and continues from T14. */
  lemma InsertionStep13(allowDup: bool, acts: seq<Action>)
    requires 13 < |acts| && acts[13] == Insertion[13]
    ensures SpecRun(T13, 14, allowDup, true, acts[13..]) == SpecRun(T14, 15, allowDup, true, acts[14..])
  {
    var m := |acts|;
    RunHead(T13, 14, allowDup, true, acts, 13, m);
    Act400(allowDup);
    Check400();
    assert acts[13..] == acts[13..m] && acts[14..] == acts[14..m];
  }

  /** Running from T14 performs action 14 (insert 380) and continues from T15. */
  lemma InsertionStep14(allowDup: bool, acts: seq<Action>)
    requires 14 < |acts| && acts[14] == Insertion[14]
    ensures SpecRun(T14, 15, allowDup, true, acts[14..]) == SpecRun(T15, 16, allowDup, true, acts[15..])
  {
    var m := |acts|;
    RunHead(T14, 15, allowDup, true, acts, 14, m);
    Act380(allowDup);
    Check380();
    assert acts[14..] == acts[14..m] && acts[15..] == acts[15..m];
  }

  /** Running from T15 performs action 15 (insert 390) and continues from T16. */
  lemma InsertionStep15(allowDup: bool, acts: seq<Action>)
    requires 15 < |acts| && acts[15] == Insertion[15]
    ensures SpecRun(T15, 16, allowDup, true, acts[15..]) == SpecRun(T16, 17, allowDup, true, acts[16..])
  {
    var m := |acts|;
    RunHead(T15, 16, allowDup, true, acts, 15, m);
    Act390(allowDup);
    Check390();
    assert acts[15..] == acts[15..m] && acts[16..] == acts[16..m];
  }

  lemma StepAsRoot()
    ensures FormatStep(SetAs("root")) == "as root"
  {
  }

  lemma StepS1000Left()
    ensures FormatStep(Search(1000, Left)) == "s 1000 <-"
  {
  }

  lemma StepAsLeaf()
    ensures FormatStep(SetAs("leaf")) == "as leaf"
  {
  }

  lemma StepS1000Right()
    ensures FormatStep(Search(1000, Right)) == "s 1000 ->"
  {
  }

  lemma StepS500Left()
    ensures FormatStep(Search(500, Left)) == "s 500 <-"
  {
  }

  lemma StepRedUncleLL()
    ensures FormatStep(FixupUncle("red-uncle", "LL")) == "f red-uncle LL"
  {
  }

  lemma StepRedRoot()
    ensures FormatStep(FixupRoot) == "f red-root"
  {
  }

  lemma StepS1500Right()
    ensures FormatStep(Search(1500, Right)) == "s 1500 ->"
  {
  }

  lemma StepS1500Left()
    ensures FormatStep(Search(1500, Left)) == "s 1500 <-"
  {
  }

  lemma StepS250Left()
    ensures FormatStep(Search(250, Left)) == "s 250 <-"
  {
  }

  lemma StepBlackUncleLL()
    ensures FormatStep(FixupUncle("black-uncle", "LL")) == "f black-uncle LL"
  {
  }

  lemma StepS125Left()
    ensures FormatStep(Search(125, Left)) == "s 125 <-"
  {
  }

  lemma StepS1750Right()
    ensures FormatStep(Search(1750, Right)) == "s 1750 ->"
  {
  }

  lemma StepRedUncleRR()
    ensures FormatStep(FixupUncle("red-uncle", "RR")) == "f red-uncle RR"
  {
  }

  lemma StepS65Right()
    ensures FormatStep(Search(65, Right)) == "s 65 ->"
  {
  }

  lemma StepBlackUncleLR()
    ensures FormatStep(FixupUncle("black-uncle", "LR")) == "f black-uncle LR"
  {
  }

  lemma StepS2000Right()
    ensures FormatStep(Search(2000, Right)) == "s 2000 ->"
  {
  }

  lemma StepBlackUncleRR()
    ensures FormatStep(FixupUncle("black-uncle", "RR")) == "f black-uncle RR"
  {
  }

  lemma StepS250Right()
    ensures FormatStep(Search(250, Right)) == "s 250 ->"
  {
  }

  lemma StepS500Right()
    ensures FormatStep(Search(500, Right)) == "s 500 ->"
  {
  }

  lemma StepS350Right()
    ensures FormatStep(Search(350, Right)) == "s 350 ->"
  {
  }

  lemma StepRedUncleLR()
    ensures FormatStep(FixupUncle("red-uncle", "LR")) == "f red-uncle LR"
  {
  }

  lemma StepS400Left()
    ensures FormatStep(Search(400, Left)) == "s 400 <-"
  {
  }

  lemma StepBlackUncleRL()
    ensures FormatStep(FixupUncle("black-uncle", "RL")) == "f black-uncle RL"
  {
  }

  lemma StepS380Right()
    ensures FormatStep(Search(380, Right)) == "s 380 ->"
  {
  }

  lemma StepRedUncleRL()
    ensures FormatStep(FixupUncle("red-uncle", "RL")) == "f red-uncle RL"
  {
  }

  lemma StepS1250Left()
    ensures FormatStep(Search(1250, Left)) == "s 1250 <-"
  {
  }

  lemma StepMatch400()
    ensures FormatStep(MatchKey(400)) == "match 400"
  {
  }

  lemma StepS400Right()
    ensures FormatStep(Search(400, Right)) == "s 400 ->"
  {
  }

  lemma StepUnmatch()
    ensures FormatStep(Unmatch) == "unmatch"
  {
  }

  lemma LineInsert1000()
    ensures Symbol(InsertKey) + [' '] + PyText.IntText(1000) == "+ 1000"
  {
  }

  lemma LineInsert125()
    ensures Symbol(InsertKey) + [' '] + PyText.IntText(125) == "+ 125"
  {
  }

  lemma LineInsert1250()
    ensures Symbol(InsertKey) + [' '] + PyText.IntText(1250) == "+ 1250"
  {
  }

  lemma LineInsert1500()
    ensures Symbol(InsertKey) + [' '] + PyText.IntText(1500) == "+ 1500"
  {
  }

  lemma LineInsert1750()
    ensures Symbol(InsertKey) + [' '] + PyText.IntText(1750) == "+ 1750"
  {
  }

  lemma LineInsert2000()
    ensures Symbol(InsertKey) + [' '] + PyText.IntText(2000) == "+ 2000"
  {
  }

  lemma LineInsert250()
    ensures Symbol(InsertKey) + [' '] + PyText.IntText(250) == "+ 250"
  {
  }

  lemma LineInsert2500()
    ensures Symbol(InsertKey) + [' '] + PyText.IntText(2500) == "+ 2500"
  {
  }

  lemma LineInsert350()
    ensures Symbol(InsertKey) + [' '] + PyText.IntText(350) == "+ 350"
  {
  }

  lemma LineInsert380()
    ensures Symbol(InsertKey) + [' '] + PyText.IntText(380) == "+ 380"
  {
  }

  lemma LineInsert390()
    ensures Symbol(InsertKey) + [' '] + PyText.IntText(390) == "+ 390"
  {
  }

  lemma LineInsert400()
    ensures Symbol(InsertKey) + [' '] + PyText.IntText(400) == "+ 400"
  {
  }

  lemma LineInsert500()
    ensures Symbol(InsertKey) + [' '] + PyText.IntText(500) == "+ 500"
  {
  }

  lemma LineInsert65()
    ensures Symbol(InsertKey) + [' '] + PyText.IntText(65) == "+ 65"
  {
  }

  lemma LineInsert750()
    ensures Symbol(InsertKey) + [' '] + PyText.IntText(750) == "+ 750"
  {
  }

  lemma LineInsert95()
    ensures Symbol(InsertKey) + [' '] + PyText.IntText(95) == "+ 95"
  {
  }

  lemma LineSearch400()
    ensures Symbol(SearchKey) + [' '] + PyText.IntText(400) == "/ 400"
  {
  }

  lemma LineSearch450()
    ensures Symbol(SearchKey) + [' '] + PyText.IntText(450) == "/ 450"
  {
  }

  /** An action formats as a given item when its line and each of its steps' lines do. */
  lemma FormatsAs(a: Action, line: string, lines: seq<string>)
    requires Symbol(a.behavior) + [' '] + PyText.IntText(a.key) == line
    requires |a.steps| == |lines| && forall j :: 0 <= j < |lines| ==> FormatStep(a.steps[j]) == lines[j]
    ensures FormatAction(a) == (line, lines)
  {
    assert FormatSteps(a.steps) == lines;
  }

  lemma Text0()
    ensures FormatAction(Insertion[0]) == InsertionText[0]
  {
    LineInsert1000(); StepAsRoot();
    FormatsAs(Insertion[0], InsertionText[0].0, InsertionText[0].1);
  }

  lemma Text1()
    ensures FormatAction(Insertion[1]) == InsertionText[1]
  {
    LineInsert500(); StepS1000Left(); StepAsLeaf();
    FormatsAs(Insertion[1], InsertionText[1].0, InsertionText[1].1);
  }

  lemma Text2()
    ensures FormatAction(Insertion[2]) == InsertionText[2]
  {
    LineInsert1500(); StepS1000Right(); StepAsLeaf();
    FormatsAs(Insertion[2], InsertionText[2].0, InsertionText[2].1);
  }

  lemma Text3()
    ensures FormatAction(Insertion[3]) == InsertionText[3]
  {
    LineInsert250(); StepS1000Left(); StepS500Left(); StepAsLeaf(); StepRedUncleLL(); StepRedRoot();
    FormatsAs(Insertion[3], InsertionText[3].0, InsertionText[3].1);
  }

  lemma Text4()
    ensures FormatAction(Insertion[4]) == InsertionText[4]
  {
    LineInsert1750(); StepS1000Right(); StepS1500Right(); StepAsLeaf();
    FormatsAs(Insertion[4], InsertionText[4].0, InsertionText[4].1);
  }

  lemma Text5()
    ensures FormatAction(Insertion[5]) == InsertionText[5]
  {
    LineInsert1250(); StepS1000Right(); StepS1500Left(); StepAsLeaf();
    FormatsAs(Insertion[5], InsertionText[5].0, InsertionText[5].1);
  }

  lemma Text6()
    ensures FormatAction(Insertion[6]) == InsertionText[6]
  {
    LineInsert125(); StepS1000Left(); StepS500Left(); StepS250Left(); StepAsLeaf(); StepBlackUncleLL();
    FormatsAs(Insertion[6], InsertionText[6].0, InsertionText[6].1);
  }

  lemma Text7()
    ensures FormatAction(Insertion[7]) == InsertionText[7]
  {
    LineInsert65(); StepS1000Left(); StepS250Left(); StepS125Left(); StepAsLeaf(); StepRedUncleLL();
    FormatsAs(Insertion[7], InsertionText[7].0, InsertionText[7].1);
  }

  lemma Text8()
    ensures FormatAction(Insertion[8]) == InsertionText[8]
  {
    LineInsert2000(); StepS1000Right(); StepS1500Right(); StepS1750Right(); StepAsLeaf(); StepRedUncleRR();
    FormatsAs(Insertion[8], InsertionText[8].0, InsertionText[8].1);
  }

  lemma Text9()
    ensures FormatAction(Insertion[9]) == InsertionText[9]
  {
    LineInsert95(); StepS1000Left(); StepS250Left(); StepS125Left(); StepS65Right(); StepAsLeaf(); StepBlackUncleLR();
    FormatsAs(Insertion[9], InsertionText[9].0, InsertionText[9].1);
  }

  lemma Text10()
    ensures FormatAction(Insertion[10]) == InsertionText[10]
  {
    LineInsert2500(); StepS1000Right(); StepS1500Right(); StepS1750Right(); StepS2000Right(); StepAsLeaf(); StepBlackUncleRR();
    FormatsAs(Insertion[10], InsertionText[10].0, InsertionText[10].1);
  }

  lemma Text11()
    ensures FormatAction(Insertion[11]) == InsertionText[11]
  {
    LineInsert350(); StepS1000Left(); StepS250Right(); StepS500Left(); StepAsLeaf();
    FormatsAs(Insertion[11], InsertionText[11].0, InsertionText[11].1);
  }

  lemma Text12()
    ensures FormatAction(Insertion[12]) == InsertionText[12]
  {
    LineInsert750(); StepS1000Left(); StepS250Right(); StepS500Right(); StepAsLeaf();
    FormatsAs(Insertion[12], InsertionText[12].0, InsertionText[12].1);
  }

  lemma Text13()
    ensures FormatAction(Insertion[13]) == InsertionText[13]
  {
    LineInsert400(); StepS1000Left(); StepS250Right(); StepS500Left(); StepS350Right(); StepAsLeaf(); StepRedUncleLR(); StepRedRoot();
    FormatsAs(Insertion[13], InsertionText[13].0, InsertionText[13].1);
  }

  lemma Text14()
    ensures FormatAction(Insertion[14]) == InsertionText[14]
  {
    LineInsert380(); StepS1000Left(); StepS250Right(); StepS500Left(); StepS350Right(); StepS400Left(); StepAsLeaf(); StepBlackUncleRL();
    FormatsAs(Insertion[14], InsertionText[14].0, InsertionText[14].1);
  }

  lemma Text15()
    ensures FormatAction(Insertion[15]) == InsertionText[15]
  {
    LineInsert390(); StepS1000Left(); StepS250Right(); StepS500Left(); StepS380Right(); StepS400Left(); StepAsLeaf(); StepRedUncleRL(); StepBlackUncleRL();
    FormatsAs(Insertion[15], InsertionText[15].0, InsertionText[15].1);
  }

  lemma TextDuplicateKey()
    ensures FormatAction(DuplicateKey) == DuplicateKeyText
  {
    LineInsert1250(); StepS1000Right(); StepS1500Left(); StepS1250Left(); StepAsLeaf();
    FormatsAs(DuplicateKey, DuplicateKeyText.0, DuplicateKeyText.1);
  }

  lemma TextSearch400()
    ensures FormatAction(Search400) == Search400Text
  {
    LineSearch400(); StepS1000Left(); StepS380Right(); StepS500Left(); StepMatch400();
    FormatsAs(Search400, Search400Text.0, Search400Text.1);
  }

  lemma TextSearch450()
    ensures FormatAction(Search450) == Search450Text
  {
    LineSearch450(); StepS1000Left(); StepS380Right(); StepS500Left(); StepS400Right(); StepUnmatch();
    FormatsAs(Search450, Search450Text.0, Search450Text.1);
  }

  /** Actions format as the items of a list when each one formats as its item. */
  lemma FormatsAll(as_: seq<Action>, items: seq<(string, seq<string>)>)
    requires |as_| == |items| && forall i :: 0 <= i < |as_| ==> FormatAction(as_[i]) == items[i]
    ensures FormatBehaviors(as_) == items
  {
  }

  /** `InsertionText` is what `FormatBehaviors` writes for `Insertion`. */
  lemma InsertionFormats()
    ensures FormatBehaviors(Insertion) == InsertionText
  {
    forall i | 0 <= i < 16
      ensures FormatAction(Insertion[i]) == InsertionText[i]
    {
      if i == 0 {
        Text0();
      } else if i == 1 {
        Text1();
      } else if i == 2 {
        Text2();
      } else if i == 3 {
        Text3();
      } else if i == 4 {
        Text4();
      } else if i == 5 {
        Text5();
      } else if i == 6 {
        Text6();
      } else if i == 7 {
        Text7();
      } else if i == 8 {
        Text8();
      } else if i == 9 {
        Text9();
      } else if i == 10 {
        Text10();
      } else if i == 11 {
        Text11();
      } else if i == 12 {
        Text12();
      } else if i == 13 {
        Text13();
      } else if i == 14 {
        Text14();
      } else if i == 15 {
        Text15();
      }
    }
    FormatsAll(Insertion, InsertionText);
  }

  /** After the sixteen insertions of `INSERTION_STEPS` the tree is `T16`, the tree drawn below the fixture. */
  lemma InsertionPrefix(allowDup: bool, acts: seq<Action>)
    requires |acts| >= 16 && acts[..16] == Insertion
    ensures SpecRun(Nil, 1, allowDup, true, acts) == SpecRun(T16, 17, allowDup, true, acts[16..])
  {
    assert forall i :: 0 <= i < 16 ==> acts[i] == Insertion[i];
    InsertionStep0(allowDup, acts);
    InsertionStep1(allowDup, acts);
    InsertionStep2(allowDup, acts);
    InsertionStep3(allowDup, acts);
    InsertionStep4(allowDup, acts);
    InsertionStep5(allowDup, acts);
    InsertionStep6(allowDup, acts);
    InsertionStep7(allowDup, acts);
    InsertionStep8(allowDup, acts);
    InsertionStep9(allowDup, acts);
    InsertionStep10(allowDup, acts);
    InsertionStep11(allowDup, acts);
    InsertionStep12(allowDup, acts);
    InsertionStep13(allowDup, acts);
    InsertionStep14(allowDup, acts);
    InsertionStep15(allowDup, acts);
    assert acts[0..] == acts;
  }

  /** `test_insert`: the run of `INSERTION_STEPS` passes, whether or not duplicates are allowed. */
  lemma InsertionPasses(allowDup: bool)
    ensures SpecRun(Nil, 1, allowDup, true, Insertion) == Some(Success(()))
  {
    InsertionPrefix(allowDup, Insertion);
    assert Insertion[16..] == [];
  }

  /** `test_allow_insert_duplicate_key`: the second 1250 is inserted and its steps pass. */
  lemma DuplicateAllowedPasses()
    ensures SpecRun(Nil, 1, true, true, Insertion + [DuplicateKey]) == Some(Success(()))
  {
    var acts := Insertion + [DuplicateKey];
    assert acts[..16] == Insertion && acts[16..] == [DuplicateKey] && acts[16..][1..] == [];
    InsertionPrefix(true, acts);
    ActDuplicateAllowed();
    CheckDuplicate();
  }

  /** `test_disallow_insert_duplicate_key`: the run raises `insert_duplicated_key` carrying 1250, the last action's key. */
  lemma DuplicateRefusedRaises()
    ensures SpecRun(Nil, 1, false, true, Insertion + [DuplicateKey]) == Some(Failure(Engine(InsertDuplicatedKey(1250))))
    ensures DuplicateKey.key == 1250
  {
    var acts := Insertion + [DuplicateKey];
    assert acts[..16] == Insertion && acts[16..] == [DuplicateKey];
    InsertionPrefix(false, acts);
    ActDuplicateRefused();
  }

  /** `test_search_matched`: the search for 400 in `T16` passes with its four steps. */
  lemma SearchMatchedPasses(allowDup: bool)
    ensures SpecRun(Nil, 1, allowDup, true, Insertion + [Search400]) == Some(Success(()))
  {
    var acts := Insertion + [Search400];
    assert acts[..16] == Insertion && acts[16..] == [Search400] && acts[16..][1..] == [];
    InsertionPrefix(allowDup, acts);
    ActSearch400(allowDup);
    CheckSearch400();
  }

  /** `test_search_unmatched`: the search for 450 in `T16` passes with its five steps. */
  lemma SearchUnmatchedPasses(allowDup: bool)
    ensures SpecRun(Nil, 1, allowDup, true, Insertion + [Search450]) == Some(Success(()))
  {
    var acts := Insertion + [Search450];
    assert acts[..16] == Insertion && acts[16..] == [Search450] && acts[16..][1..] == [];
    InsertionPrefix(allowDup, acts);
    ActSearch450(allowDup);
    CheckSearch450();
  }

  // ---------------------------------------------------------------------
  // The fixture text

  /** Every step of `Insertion` passed validation. */
  lemma InsertionStepsOk()
    ensures forall i, j :: 0 <= i < |Insertion| && 0 <= j < |Insertion[i].steps| ==> StepOk(Insertion[i].steps[j])
  {
  }

  /** Every step of the three appended actions passed validation. */
  lemma ExtraStepsOk()
    ensures forall a, j :: a in [DuplicateKey, Search400, Search450] && 0 <= j < |a.steps| ==> StepOk(a.steps[j])
  {
  }

  /** The text of `INSERTION_STEPS` parses to `Insertion`. */
  lemma InsertionParses()
    ensures ParseBehaviors(InsertionText) == Success(Insertion)
  {
    InsertionFormats();
    InsertionStepsOk();
    BehaviorsRoundTrip(Insertion);
  }

  /** The text of a fixture made of `INSERTION_STEPS` and one more item parses to `Insertion` and that item's action. */
  lemma ExtendedParses(a: Action, item: (string, seq<string>))
    requires a in [DuplicateKey, Search400, Search450] && FormatAction(a) == item
    ensures ParseBehaviors(InsertionText + [item]) == Success(Insertion + [a])
  {
    InsertionParses();
    ExtraStepsOk();
    BehaviorRoundTrip(a);
    ParseBehaviorsSnoc(InsertionText, item);
  }

  /** The texts of `INSERT_DUPLICATE_KEY_STEPS`, `SEARCH_400_STEPS` and `SEARCH_450_STEPS` parse to their actions. */
  lemma FixturesParse()
    ensures ParseBehaviors(InsertionText + [DuplicateKeyText]) == Success(Insertion + [DuplicateKey])
    ensures ParseBehaviors(InsertionText + [Search400Text]) == Success(Insertion + [Search400])
    ensures ParseBehaviors(InsertionText + [Search450Text]) == Success(Insertion + [Search450])
  {
    TextDuplicateKey();
    TextSearch400();
    TextSearch450();
    ExtendedParses(DuplicateKey, DuplicateKeyText);
    ExtendedParses(Search400, Search400Text);
    ExtendedParses(Search450, Search450Text);
  }
}
