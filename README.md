# garden: red-black tree, step recorder, step follower and named container tree

This project models four pieces of the `garden` repository. It proves properties of each model.

1. **The red-black tree engine** (`RedBlackTree` of `src/lib/algorithms/red_black_tree.py`).
   - `insert` descends left on `key <= node.key`. It hangs a red leaf and runs the recolour/rotate fix-up, written once and keyed on the side each node hangs on.
   - `search` is a plain lookup.
   - `delete` copies the in-order predecessor into the matched node. It then unlinks a red record, lets a black one absorb a red right child, or runs the double-black loop.
   - Every decision point calls the step recorder, but only while `enable_step_recorder` is on.
   - Module `RedBlackTrees` (class `RedBlackTree`) keeps the nodes in an arena `nodes: seq<Slot<V>>`. Index 0 is the shared black `ND_NULL` sentinel, and each record holds key, value, colour, both children, the parent and `from_direction`.
   - A ghost `Tree<V>` tracks the tree the arena holds (`Holds`), with node ids equal to arena indices. Module `RedBlackArena` relates arena writes to that tree.
   - Module `RedBlackSpec` gives the functional specification. It covers the descent (`SpecInsert`/`Descend`), the fix-up as a zipper walk (`Fixup`/`FixupStep`), `SpecSearch` and `SpecDelete`. Its lemmas prove BST order, no red-red edge, equal black height, a black root and unchanged contents.
2. **The recorder switch** (`AlgorithmBase` of `src/lib/algorithm.py`, module `Algorithm`): an optional recorder and an enable flag.
3. **The trace checker** (`src/tests/lib/algorithms/algorithm.py`).
   - Module `StepRecording`: the recorder's tuple queue.
   - Module `StepLanguage`: the step and action line language (parse, validate, match), with format functions that parse back.
   - Module `StepFollowing`: the follower's loading and `run`.
   - Module `PyText`: the Python string built-ins the parser uses (`find`, slicing, `strip`, `int`, `str`).
   - Module `RedBlackFixtures` turns the fixtures of `fake_red_black_tree.py` and the tests of `test_red_black_tree.py` into lemmas.
4. **The named container tree** (`_NodeBase`/`ScalarNode`/`ContainerNode` of `src/lib/tree.py`, module `NamedTrees`).
   - A class `NodeStore` holds every node in `nodes: seq<Node>`. A node is its index; `_parent` is an `Option` of an index; `_children` is a map from name to index.
   - The methods re-parent, remove, walk up with cycle detection and render the ASCII tree. Each is proved equal to a specification function, and lemmas about those functions state what `tree.py` promises.
   - Module `NamedTreeFixtures` checks `test_tree.py` against the model.

Errors are values throughout:
- `TreeError.InsertDuplicatedKey(key)` for `insert_duplicated_key`;
- `AlgorithmError.RecorderMissing` for `open_step_recorder` without a recorder;
- `Fault.AttributeError` for the engine dereferencing `None`;
- `ParseError` for `ValueError` and failed asserts while loading;
- `FollowError` for a failing `run`;
- `NamedTrees.TreeError` for `circular_dependency`, a failed `is_container` assert, a `KeyError`, a negative display level and a `RecursionError`.

## Model

| member | source | states |
|---|---|---|
| RedBlackTrees.RedBlackTree.constructor | src/lib/algorithms/red_black_tree.py:78-89 | The new tree is empty: the arena holds only the black sentinel, `ND_ROOT` is the sentinel, the recorder is the one passed and recording is off. |
| RedBlackTrees.RedBlackTree.Insert | src/lib/algorithms/red_black_tree.py:91-315 | The result is a red-black tree again. `insert_duplicated_key(key)` is raised exactly when duplicates are disallowed and the key is present, and then nothing changes. Otherwise the in-order entries are the old ones with the new entry placed before the first key not below it, the new node's id is fresh, and the recorder receives exactly the calls `SpecInsert` lists, nothing while recording is off. |
| RedBlackTrees.RedBlackTree.InsertEmpty | src/lib/algorithms/red_black_tree.py:101-109 | Inserting into an empty tree gives a single black root with nil children and exactly one `init_tree` call. |
| RedBlackTrees.RedBlackTree.InsertBelow | src/lib/algorithms/red_black_tree.py:112-315 | With a root present: a duplicate refusal changes nothing; otherwise the arena grows by one record, holds `SpecInsert`'s tree and records its calls. |
| RedBlackTrees.RedBlackTree.FindSlot | src/lib/algorithms/red_black_tree.py:112-138 | The descent goes left on `key <= node.key` and right otherwise, one `search_node` per hop. It ends at a node with an empty side `d`, or at an equal key exactly when duplicates are disallowed. |
| RedBlackTrees.RedBlackTree.Link | src/lib/algorithms/red_black_tree.py:121-148 | The new record is a red leaf in a fresh slot, hung on the empty side `d` of the node found, with its parent and `from_direction` set to match. One `search_node(…, finished=True)` call is recorded. |
| RedBlackTrees.RedBlackTree.FixUp | src/lib/algorithms/red_black_tree.py:152-313 | The fix-up loop leaves the arena holding the tree the specification's `Fixup` ends with, and records its `fixup_tree`/`blacken_root_node` calls in order. |
| RedBlackTrees.RedBlackTree.FixupTurn | src/lib/algorithms/red_black_tree.py:153-313 | One turn: it stops at a black parent; otherwise it makes one `fixup_tree` call and then rotates (ending the loop) or recolours. The loop continues exactly when `FixupStep` continues. |
| RedBlackTrees.RedBlackTree.RedUncle | src/lib/algorithms/red_black_tree.py:300-313 | Red uncle: parent and uncle turn black. When the grandparent is the root, it stays as it is, `blacken_root_node` is recorded and the loop ends; otherwise it turns red. The `fixup_tree` tuple carries the parent's and the node's sides. |
| RedBlackTrees.RedBlackTree.BlackUncle | src/lib/algorithms/red_black_tree.py:164-283 | Black uncle: one `fixup_tree` call, then one rotation or two. The loop ends with the arena holding `FixupStep`'s tree. |
| RedBlackTrees.RedBlackTree.RotateStraight | src/lib/algorithms/red_black_tree.py:199-231 | The straight-line single rotation, keyed on the side the parent had before the rotation. The arena afterwards holds the `Straight` rearrangement of the three levels. See Findings. |
| RedBlackTrees.RedBlackTree.RotateZigZag | src/lib/algorithms/red_black_tree.py:233-281 | The zig-zag double rotation: the arena afterwards holds the `ZigZag` rearrangement with the node promoted above parent and grandparent. |
| RedBlackSpec.RotationsOk | src/lib/algorithms/red_black_tree.py:184-283 | Either rotation under a black uncle gives a balanced, red-red-free tree with a black top. It has the same black height plus one, the same in-order entries and the same node ids. |
| RedBlackSpec.RecolorOk | src/lib/algorithms/red_black_tree.py:300-313 | Recolouring under a red uncle keeps balance and entries and removes the red-red edge below the grandparent. |
| RedBlackSpec.FixupCorrect | src/lib/algorithms/red_black_tree.py:152-313 | From any state the loop invariant admits, the fix-up ends with a balanced, red-red-free tree with a black root, with the same entries and ids as the tree it started from. |
| RedBlackSpec.InsertCorrect | src/lib/algorithms/red_black_tree.py:91-315 | On a red-black tree, `SpecInsert` refuses exactly a present key when duplicates are disallowed. Otherwise it gives a red-black tree whose entries are `InsertAt` of the old ones and whose ids gain exactly the new one. The entries stay strictly sorted when duplicates are disallowed. |
| RedBlackTrees.RedBlackTree.Search | src/lib/algorithms/red_black_tree.py:317-347 | Nothing in the tree changes. The result is the node `SpecSearch` finds (`None` exactly when it finds none), and the recorder receives one `search_node` per hop and then one `match_node` or `unmatch_node`. |
| RedBlackSpec.SearchCorrect | src/lib/algorithms/red_black_tree.py:317-347 | On a sorted tree the search finds a node exactly when the key is present. That node has the key, is in the tree, and its entry is one of the tree's. |
| RedBlackTrees.RedBlackTree.Delete | src/lib/algorithms/red_black_tree.py:349-675 | `False` exactly when the key is absent, and then nothing changes. The fast paths give `True` and a red-black tree with one entry of that key removed and no new ids. Deleting a lone black root raises `AttributeError` with `ND_ROOT` set to the sentinel. In every case the arena stays well formed. |
| RedBlackTrees.RedBlackTree.Navigate | src/lib/algorithms/red_black_tree.py:362-373 | The walk of `delete` finds a record exactly when `Locate` does, and returns that record. Nothing changes. |
| RedBlackSpec.LocateIsSearch | src/lib/algorithms/red_black_tree.py:362-373 | `delete`'s walk finds exactly the node `search` finds. |
| RedBlackTrees.RedBlackTree.Replacement | src/lib/algorithms/red_black_tree.py:375-385 | When the matched record has a left subtree, it takes the key and value of that subtree's rightmost record, which becomes the record to remove. Otherwise the matched record itself is removed. The arena then holds the tree `Target` describes, with that record at its hole. |
| RedBlackTrees.RedBlackTree.DropRed | src/lib/algorithms/red_black_tree.py:475-480 | A red record to remove is unlinked from its parent, and the arena holds the tree with that leaf gone. |
| RedBlackTrees.RedBlackTree.AbsorbRight | src/lib/algorithms/red_black_tree.py:482-487 | A black record with a red right child takes that child's key and value, and drops the child. |
| RedBlackSpec.DeleteCorrect | src/lib/algorithms/red_black_tree.py:349-487 | On a red-black tree `SpecDelete` reports `NotFound` exactly when the key is absent. Its fast-path result is red-black, keeps strict order when there was one, adds no ids, and lacks exactly one entry with that key. |
| RedBlackTrees.RedBlackTree.RemoveBlack | src/lib/algorithms/red_black_tree.py:489-675 | The double-black path keeps the arena well formed and its size. A lone root raises `AttributeError` and leaves `ND_ROOT` at the sentinel. |
| RedBlackTrees.RedBlackTree.DoubleBlackLoop | src/lib/algorithms/red_black_tree.py:494-667 | Each turn of the loop keeps the arena well formed. At a node without a parent it raises `AttributeError` and changes nothing. |
| RedBlackTrees.RedBlackTree.FarNephew | src/lib/algorithms/red_black_tree.py:561-593 | The far-red-nephew rotation keeps the arena well formed and its size (its fall-through into the near-nephew case is modelled as written, see Left out). |
| RedBlackTrees.RedBlackTree.NearNephew | src/lib/algorithms/red_black_tree.py:601-665 | The near-nephew double rotation keeps the arena well formed and its size. |
| RedBlackTrees.RedBlackTree.RedSibling | src/lib/algorithms/red_black_tree.py:503-534 | The red-sibling rotation keeps the arena well formed and its size. |
| Algorithm.AlgorithmBase.constructor | src/lib/algorithm.py:38-43 | A fresh algorithm keeps the recorder it was given, or none, and recording is off. |
| Algorithm.AlgorithmBase.OpenStepRecorder | src/lib/algorithm.py:45-53 | Without a recorder it fails with `RecorderMissing` and the flag stays off; with one, recording is on. |
| Algorithm.AlgorithmBase.CloseStepRecorder | src/lib/algorithm.py:55-56 | Recording is off afterwards, whatever it was before. |
| StepRecording.StepRecorder.constructor | src/tests/lib/algorithms/algorithm.py:15-16 | The queue starts empty. |
| StepRecording.StepRecorder.InitTree | src/tests/lib/algorithms/algorithm.py:18-19 | `('set_as', 'root')` is appended. |
| StepRecording.StepRecorder.SearchNode | src/tests/lib/algorithms/algorithm.py:21-24 | `('search', key, 'left'/'right')` is appended, and then `('set_as', 'leaf')` when `finished`. |
| StepRecording.StepRecorder.MatchNode | src/tests/lib/algorithms/algorithm.py:26-27 | `('match', key)` is appended. |
| StepRecording.StepRecorder.UnmatchNode | src/tests/lib/algorithms/algorithm.py:29-30 | `('unmatch',)` is appended. |
| StepRecording.StepRecorder.FixupTree | src/tests/lib/algorithms/algorithm.py:32-45 | `('fixup', 'red-uncle' or 'black-uncle', P + M)` is appended: the kind follows the uncle's colour, and P and M are the L/R letters of the parent's and the node's sides. |
| StepRecording.StepRecorder.BlackenRootNode | src/tests/lib/algorithms/algorithm.py:47-48 | `('fixup', 'red-root')` is appended. |
| StepRecording.StepRecorder.Reset | src/tests/lib/algorithms/algorithm.py:50-51 | The queue is empty afterwards. |
| StepRecording.StepRecorder.IsEmpty | src/tests/lib/algorithms/algorithm.py:53-55 | True exactly when the queue's length is 0. |
| StepRecording.StepRecorder.NextStep | src/tests/lib/algorithms/algorithm.py:57-62 | `None` on an empty queue, which stays empty; otherwise the front tuple, removed from the queue. |
| StepRecording.StepRecorder.LeftSteps | src/tests/lib/algorithms/algorithm.py:64-66 | The tuples still queued. |
| StepRecording.RecordAllLength | src/tests/lib/algorithms/algorithm.py:18-48 | Every engine call leaves at least one tuple, so the queue is never shorter than the calls that made it. |
| StepLanguage.ParseStepOk | src/tests/lib/algorithms/algorithm.py:86-98 | A step that parses is a valid step, and the word it was read from is one of its behaviour's aliases (`as`; `search`/`s`; `match`/`m`; `unmatch`/`um`; `fixup`/`f`). |
| StepLanguage.StepRoundTrip | src/tests/lib/algorithms/algorithm.py:123-168 | Each valid step, written as a line, parses back to itself. This covers `as root/leaf`, `s <k> <-/->` with the key before the last two characters, `match <k>`, `unmatch` without data, `f red-root` without a direction, and `f red-uncle/black-uncle` with one of RR, RL, LL, LR. |
| StepLanguage.StepsRoundTrip | src/tests/lib/algorithms/algorithm.py:274-281 | A list of valid steps written as lines parses back to the same list. A line without a space gets empty data. |
| StepLanguage.ActionRoundTrip | src/tests/lib/algorithms/algorithm.py:222-233 | `+`, `/` and `-` followed by a space and the key's digits parse to insert, search and delete of that key. |
| StepLanguage.BehaviorRoundTrip | src/tests/lib/algorithms/algorithm.py:266-281 | An action line with its step lines parses back to the same action. |
| StepLanguage.BehaviorsRoundTrip | src/tests/lib/algorithms/algorithm.py:266-281 | A whole behaviour list parses back to the same actions, in order. |
| StepLanguage.MatchIsPrefix | src/tests/lib/algorithms/algorithm.py:170-204 | `match` succeeds exactly when the tuple starts with the behaviour's tag and the step's key, direction or fix-up fields. |
| StepLanguage.ExpectedExact | src/tests/lib/algorithms/algorithm.py:123-204 | Two valid steps whose expected tuples are prefixes of each other are the same step. |
| StepLanguage.DescribeRecord | src/tests/lib/algorithms/algorithm.py:18-48 | Each engine call has valid steps describing it, one per recorded tuple, each expecting that tuple. |
| PyText.IntRoundTrip | src/tests/lib/algorithms/algorithm.py:130-142 | `int(str(k)) == k` for every integer. |
| PyText.ParseInt | src/tests/lib/algorithms/algorithm.py:130-142 | `int()` accepts a text exactly when, with surrounding ASCII white space stripped, it is ASCII digits in groups joined by single underscores, optionally signed. Anything else is refused, as Python's `ValueError`. The value it returns is pinned by `IntRoundTrip` for `str`'s output and by `LeadingZero`, `UnderscoreSkipped` and the sample lemmas for other text. |
| PyText.LeadingZero | src/tests/lib/algorithms/algorithm.py:130-142 | A leading zero does not change the value of a digit text, so `int('007') == int('7')`. |
| PyText.UnderscoreSkipped | src/tests/lib/algorithms/algorithm.py:130-142 | An underscore between digits does not change the value, so `int('1_0') == int('10')`. |
| PyText.ParseSignedZeros | src/tests/lib/algorithms/algorithm.py:130-142 | `int('+007') == 7`. |
| PyText.ParseSpacedUnderscore | src/tests/lib/algorithms/algorithm.py:130-142 | `int(' 1_0\n') == 10`: surrounding white space is dropped and the inner underscore skipped. |
| PyText.ParseDoubledUnderscore | src/tests/lib/algorithms/algorithm.py:130-142 | `int('1__0')` raises `ValueError`. |
| PyText.ParseOuterUnderscore | src/tests/lib/algorithms/algorithm.py:130-142 | `int('_1')` raises `ValueError`. |
| PyText.ParseBareSign | src/tests/lib/algorithms/algorithm.py:130-142 | `int('+')` raises `ValueError`. |
| StepFollowing.FollowIff | src/tests/lib/algorithms/algorithm.py:295-313 | One action's check passes exactly when there are as many tuples as expected steps and each step matches its tuple. No step may find the queue empty, and no tuple may be left over. |
| StepFollowing.FollowExact | src/tests/lib/algorithms/algorithm.py:285-313 | Valid expected steps pass against a recorded run exactly when they are that run's description, so the fixtures pin the engine's calls down completely. |
| StepFollowing.DescribedFollows | src/tests/lib/algorithms/algorithm.py:285-313 | The description of any run of engine calls passes the check of what the recorder wrote for it. |
| StepFollowing.RunHead | src/tests/lib/algorithms/algorithm.py:286-313 | A run of actions is the first action's engine call and check, and then the run of the rest. |
| StepFollowing.StepFollower.Load | src/tests/lib/algorithms/algorithm.py:258-283 | Parsing failure stops loading with its error. Otherwise, with no recorder, `open_step_recorder` fails; with one, the follower holds the parsed actions and recording is on. |
| StepFollowing.StepFollower.LoadBehaviors | src/tests/lib/algorithms/algorithm.py:266-281 | The loading loop gives exactly `ParseBehaviors` of the items. |
| StepFollowing.StepFollower.LoadSteps | src/tests/lib/algorithms/algorithm.py:274-281 | The inner loop gives exactly `ParseSteps` of the lines. |
| StepFollowing.StepFollower.Check | src/tests/lib/algorithms/algorithm.py:295-313 | Draining the queue against the expected steps gives exactly `Follow`. |
| StepFollowing.StepFollower.Act | src/tests/lib/algorithms/algorithm.py:287-313 | Reset, the engine call and the check give what `SpecAct` and `Follow` decide for that action. |
| StepFollowing.StepFollower.Run | src/tests/lib/algorithms/algorithm.py:285-313 | `run()` gives `SpecRun`'s result whenever that result is decided. |
| RedBlackFixtures.InsertionPrefix | src/tests/lib/algorithms/__data__/fake_red_black_tree.py:33-162 | The sixteen insertions of `INSERTION_STEPS` leave exactly the tree drawn under the fixture. |
| RedBlackFixtures.InsertionParses | src/tests/lib/algorithms/__data__/fake_red_black_tree.py:33-139 | The text of `INSERTION_STEPS` parses to its sixteen actions. |
| RedBlackFixtures.FixturesParse | src/tests/lib/algorithms/__data__/fake_red_black_tree.py:165-191 | The duplicate-key and the two search fixtures parse to their actions. |
| RedBlackFixtures.InsertionPasses | src/tests/lib/algorithms/test_red_black_tree.py:15-20 | `test_insert`: the run of `INSERTION_STEPS` passes, with or without duplicates allowed. |
| RedBlackFixtures.DuplicateAllowedPasses | src/tests/lib/algorithms/test_red_black_tree.py:22-27 | With duplicates allowed the second 1250 goes left (`s 1250 <-`) and the run passes. |
| RedBlackFixtures.DuplicateRefusedRaises | src/tests/lib/algorithms/test_red_black_tree.py:29-39 | With duplicates disallowed the run raises `insert_duplicated_key` carrying 1250. |
| RedBlackFixtures.SearchMatchedPasses | src/tests/lib/algorithms/test_red_black_tree.py:44-49 | The search for 400 passes with its four steps. |
| RedBlackFixtures.SearchUnmatchedPasses | src/tests/lib/algorithms/test_red_black_tree.py:51-56 | The search for 450 passes with its five steps. |
| RedBlackArena.ThreeTwoOneAfter | src/lib/algorithms/red_black_tree.py:206-220 | The rotation as written, on the third insertion of 3, 2, 1, leaves an arena that holds no tree at all. |
| RedBlackArena.StraightAsWrittenCycle | src/lib/algorithms/red_black_tree.py:206-220 | With the grandparent at the root and the parent on its left, the rotation as written leaves the two records pointing at each other through their left links. |
| NamedTrees.NodeStore.constructor | src/lib/tree.py:29-44 | The store starts empty. |
| NamedTrees.NodeStore.NewNode | src/lib/tree.py:35-44 | A node whose parent is a scalar is refused. Otherwise the new node is appended and, when a parent is given, the setter runs. The state and result are exactly `NewNodeSpec`'s. |
| NamedTrees.NodeStore.SetParent | src/lib/tree.py:49-57 | The setter's new store and result are exactly `SetParentSpec`'s. |
| NamedTrees.SetParentMoves | src/lib/tree.py:49-57 | Even when the walk then raises, the node is now under the new parent and listed in its children under its name. It is gone from a different old parent's children, and no other node changes. |
| NamedTrees.SetParentRaises | src/lib/tree.py:49-57 | A scalar parent is refused, and a `KeyError` is raised when the old parent no longer lists the name; neither changes anything. Otherwise the setter succeeds exactly when the walk up from the node reaches a root. |
| NamedTrees.NewNodeLinksFirst | src/lib/tree.py:35-57 | Building a node under a container appends it and links it both ways before the walk runs: the new node has the parent, the parent's children gain its name and no other node changes. Construction succeeds with the new index exactly when the walk up from it reaches a root; when it raises, the links stay. |
| NamedTrees.SetParentLinked | src/lib/tree.py:49-57 | Re-linking keeps every parent and child reference inside the store. |
| NamedTrees.NodeStore.Remove | src/lib/tree.py:113-118 | The new store and result are exactly `RemoveSpec`'s. |
| NamedTrees.RemoveDetaches | src/lib/tree.py:113-118 | A root is left alone. Otherwise the node becomes a root and its name leaves the parent's children, so `is_root` holds afterwards. |
| NamedTrees.NodeStore.RequiredNodes | src/lib/tree.py:87-101 | The loop's result is exactly `Required`, the walk from the node up the parent links. |
| NamedTrees.RequiredIsWalk | src/lib/tree.py:87-101 | `_get_required_nodes` returns `w` exactly when `w` climbs from the node through distinct nodes to a node without a parent. |
| NamedTrees.CircularIsCycle | src/lib/tree.py:91-94 | The walk fails with the ids listed so far exactly when they climb from the node through distinct nodes into one already listed. |
| NamedTrees.RequiredThroughParent | src/lib/tree.py:87-101 | The walk from a node with a parent is the node followed by the walk from its parent. |
| NamedTrees.ClimbSound | src/lib/tree.py:87-101 | What the walk lists extends what it started with, along parent links, through distinct nodes. |
| NamedTrees.NodeStore.Root | src/lib/tree.py:63-65 | `root` fails exactly when the walk does, with its error. Otherwise it is the walk's last node, which has no parent. |
| NamedTrees.NodeStore.Path | src/lib/tree.py:103-107 | `path` fails exactly when the walk does. Otherwise it is the walk reversed: it starts at a root, and each node is the parent of the next. |
| NamedTrees.NodeStore.PathLevel | src/lib/tree.py:109-111 | `path_level` fails exactly when the walk does. Otherwise it is the walk's length, at least 1. |
| NamedTrees.SortedKeysSorted | src/lib/tree.py:163 | `sorted` of the children's names lists every name once, in strictly ascending Python string order. |
| NamedTrees.SortedKeysUnique | src/lib/tree.py:163 | Any strictly ascending listing of exactly those names is `sorted`'s. |
| NamedTrees.SortedNames | src/lib/tree.py:163 | The selection loop gives exactly the sorted names. |
| NamedTrees.NodeStore.PrintTree | src/lib/tree.py:140-172 | `_print_tree` appends exactly the lines `Rows` gives. A scalar or a node at the display depth gets only its own line. A cycle met with no display depth raises `RecursionLimit`. |
| NamedTrees.NodeStore.PrintChildren | src/lib/tree.py:161-172 | The loop over the sorted children appends each child's lines in order; only the last child gets the elbow. |
| NamedTrees.RowsHead | src/lib/tree.py:149-153 | A node's first line is its header, then `└──` if last or `├──` otherwise when below the top, then `name: eigenvalue`. |
| NamedTrees.RowsUnderHeader | src/lib/tree.py:165-171 | Every line drawn for a node below the top starts with the header its parent handed down. |
| NamedTrees.NodeStore.OutputTreeMode | src/lib/tree.py:136-176 | The result is exactly `TreeModeSpec`: the lines joined by newlines, with a negative display level refused. |
| NamedTreeFixtures.DisplayWithTreeMode | src/tests/lib/test_tree.py:48-61 | The store built by the display test renders exactly `NORMAL_TREE_DISPLAY`. |
| NamedTreeFixtures.BuiltLines | src/tests/lib/__data__/fake_tree.py:4-14 | The display test's drawing is `NORMAL_TREE_DISPLAY`, line for line. |
| NamedTreeFixtures.RootsOfDisplay | src/tests/lib/test_tree.py:62-64 | `nd_root` is a root; `nd_dir1` and `nd_dir2` are not. |
| NamedTreeFixtures.PathOfRootFile | src/tests/lib/test_tree.py:66 | `nd_file1.path` names `/`, `file1`. |
| NamedTreeFixtures.PathOfDeepFile | src/tests/lib/test_tree.py:67-68 | `nd_file2.path` names `/`, `dir1`, `dir2`, `file2`. |
| NamedTreeFixtures.CircularSetup | src/tests/lib/test_tree.py:71-74 | Building `a` and `b` and setting `a.parent = b` succeeds. |
| NamedTreeFixtures.CircularParents | src/tests/lib/test_tree.py:76-79 | `b.parent = a` then raises `circular_dependency` with `['b', 'a']`, and the new links stay. |

## Left out

- DoubleBlackLoop: the source's `while True` (src/lib/algorithms/red_black_tree.py:493) is modelled with fuel `2 * |nodes|` turns. When the fuel runs out it returns `Fault.OutOfFuel` instead of looping on. Nothing about termination is proved.
- RemoveBlack, DoubleBlackLoop, RedSibling, FarNephew and NearNephew state only that the arena stays well formed, plus the lone-root `AttributeError`. The two defects of this path are modelled as written and not proved as properties: the far-red-nephew case has no `break`, and the lone black root is dereferenced after `ND_ROOT` is cleared. A black predecessor with a red left child is also left as written.
- Delete: where the source stores `None` into a child or parent link and fails on the next statement, the model raises `AttributeError` one statement early. Record links are indices and cannot hold `None`.
- Insert, Search and Delete require the tree invariant (`Valid()`, or `Holds` for `Search`). A tree left behind by a double-black delete is not red-black, so nothing after such a delete is modelled.
- Insert: the engine performs the corrected straight rotation. The rotation as written breaks the tree on the third insertion of 3, 2, 1 (see Findings), so `Insert`'s contract describes the intended behaviour, not the code line for line.
- Keys are `int` only, and values are any type `V`. The `rb_node_cls` parameter of the constructor is dropped, since records are the arena's own slots.
- The follower runs the engine at `V = ()`, for its `insert(key, None)`.
- Run: callable only when no action except the last one reaches a `delete` path the model leaves open. Its result is promised whenever `SpecRun` decides it.
- ParseInt: accepts only ASCII whitespace and the ASCII digits 0-9. Python's `int()` also takes U+00A0 and the other Unicode spaces, and Unicode decimal digits.
- YAML loading (`load_yaml`) and every `LOG.debug` call: the behaviours arrive as an already split list of (action line, step lines).
- The `DELETION_STEPS` fixture uses step kinds (`replace`, `remove`, `fd`) that the step parser rejects. The traversal stubs and the empty `test_delete` are left out with it.
- The rest of `src/lib/algorithm.py` (`FollowerAST`, `FollowerEntrypoint`, the second `AlgorithmStepFollower`) is not part of this model, because it does not parse as written.
- `MigrateScheme`/`TreeMigration` and `test_migrate_tree` are not part of this model; their operations are stubs.
- `EigenValue` is kept as the text of its value.
- The `_rb_containers`/`_rb_scalars` placeholders of `ContainerNode` are left out; they are never read.
- Python nodes are heap objects. Here they are indices into one store, so there is no aliasing beyond index equality.
- NamedTrees.NodeStore.OutputTreeMode: `assert display_level >= 0` becomes `NegativeLevel`. On a scalar node, which lacks the method, the call gives `NotAContainer`.
- NamedTrees.NodeStore.PrintTree: Python's `RecursionError` on a cycle becomes `RecursionLimit` when the renderer revisits an ancestor. It is not raised at a stack depth.
- A node whose construction raised in the setter stays in the store with its new links, as the Python object would, and its new parent's children still list it under its name (`NamedTrees.NewNodeLinksFirst`). Rendering that parent draws it.
- A `ContainerNode` whose construction raised never reaches `self._children = {}` (tree.py:131), so rendering it in Python raises `AttributeError`. The model gives such a node an empty children map, and renders it as a container without children.
- The test helper `generate_tree` is not modelled; the display test's construction is modelled step by step instead (`NamedTreeFixtures.BuildStep0` … `BuildStep10`).
- Web server, greenlet service, logging, reflection helpers, exception registry and the `lark` transformer are not part of this model.

## Findings

| source | as written | input that shows it | evidently intended | confidence | as-written member | corrected member |
|---|---|---|---|---|---|---|
| src/lib/algorithms/red_black_tree.py:206-220 | The straight-line rotation overwrites the parent's `from_direction` with the grandparent's (lines 206-217). Line 220 then tests that overwritten value to pick the side to rotate on. | Insert 3, 2, 1. At the fix-up of 1 the grandparent 3 is the root and the parent 2 hangs on its left. The rotation as written makes `ND_ROOT` 2, with 2's left link pointing to 3 and 3's left link pointing to 2, so no tree is left. | The single rotation is keyed on the side the parent hung on before the rotation. | not executed | RedBlackArena.ThreeTwoOneAfter | RedBlackTrees.RedBlackTree.RotateStraight |
