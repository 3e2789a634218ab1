/**
 * The trees of `tests/lib/test_tree.py` as concrete lemmas: the store the
 * display test builds node by node, its drawing, the paths it checks, and
 * the two containers made each other's parent.
 */
module NamedTreeFixtures {
  import opened Wrappers
  import opened NamedTrees

  const Built0: seq<Node> := [
    Node("/", "D0", Container, None, map[])
  ]

  const Built1: seq<Node> := [
    Node("/", "D0", Container, None, map["file1" := 1]),
    Node("file1", "F0-1", Scalar, Some(0), map[])
  ]

  const Built2: seq<Node> := [
    Node("/", "D0", Container, None, map["file1" := 1, "file2" := 2]),
    Node("file1", "F0-1", Scalar, Some(0), map[]),
    Node("file2", "F0-2", Scalar, Some(0), map[])
  ]

  const Built3: seq<Node> := [
    Node("/", "D0", Container, None, map["file1" := 1, "file2" := 2, "dir1" := 3]),
    Node("file1", "F0-1", Scalar, Some(0), map[]),
    Node("file2", "F0-2", Scalar, Some(0), map[]),
    Node("dir1", "D1-1", Container, Some(0), map[])
  ]

  const Built4: seq<Node> := [
    Node("/", "D0", Container, None, map["file1" := 1, "file2" := 2, "dir1" := 3]),
    Node("file1", "F0-1", Scalar, Some(0), map[]),
    Node("file2", "F0-2", Scalar, Some(0), map[]),
    Node("dir1", "D1-1", Container, Some(0), map[]),
    Node("file1", "F1-1-1", Scalar, None, map[])
  ]

  const Built5: seq<Node> := [
    Node("/", "D0", Container, None, map["file1" := 1, "file2" := 2, "dir1" := 3]),
    Node("file1", "F0-1", Scalar, Some(0), map[]),
    Node("file2", "F0-2", Scalar, Some(0), map[]),
    Node("dir1", "D1-1", Container, Some(0), map["file1" := 4]),
    Node("file1", "F1-1-1", Scalar, Some(3), map[])
  ]

  const Built6: seq<Node> := [
    Node("/", "D0", Container, None, map["file1" := 1, "file2" := 2, "dir1" := 3]),
    Node("file1", "F0-1", Scalar, Some(0), map[]),
    Node("file2", "F0-2", Scalar, Some(0), map[]),
    Node("dir1", "D1-1", Container, Some(0), map["file1" := 4]),
    Node("file1", "F1-1-1", Scalar, Some(3), map[]),
    Node("file2", "F1-1-2", Scalar, None, map[])
  ]

  const Built7: seq<Node> := [
    Node("/", "D0", Container, None, map["file1" := 1, "file2" := 2, "dir1" := 3]),
    Node("file1", "F0-1", Scalar, Some(0), map[]),
    Node("file2", "F0-2", Scalar, Some(0), map[]),
    Node("dir1", "D1-1", Container, Some(0), map["file1" := 4, "file2" := 5]),
    Node("file1", "F1-1-1", Scalar, Some(3), map[]),
    Node("file2", "F1-1-2", Scalar, Some(3), map[])
  ]

  const Built8: seq<Node> := [
    Node("/", "D0", Container, None, map["file1" := 1, "file2" := 2, "dir1" := 3]),
    Node("file1", "F0-1", Scalar, Some(0), map[]),
    Node("file2", "F0-2", Scalar, Some(0), map[]),
    Node("dir1", "D1-1", Container, Some(0), map["file1" := 4, "file2" := 5, "dir2" := 6]),
    Node("file1", "F1-1-1", Scalar, Some(3), map[]),
    Node("file2", "F1-1-2", Scalar, Some(3), map[]),
    Node("dir2", "D1-2", Container, Some(3), map[])
  ]

  const Built9: seq<Node> := [
    Node("/", "D0", Container, None, map["file1" := 1, "file2" := 2, "dir1" := 3]),
    Node("file1", "F0-1", Scalar, Some(0), map[]),
    Node("file2", "F0-2", Scalar, Some(0), map[]),
    Node("dir1", "D1-1", Container, Some(0), map["file1" := 4, "file2" := 5, "dir2" := 6]),
    Node("file1", "F1-1-1", Scalar, Some(3), map[]),
    Node("file2", "F1-1-2", Scalar, Some(3), map[]),
    Node("dir2", "D1-2", Container, Some(3), map["file1" := 7]),
    Node("file1", "F1-2-1", Scalar, Some(6), map[])
  ]

  const Built10: seq<Node> := [
    Node("/", "D0", Container, None, map["file1" := 1, "file2" := 2, "dir1" := 3]),
    Node("file1", "F0-1", Scalar, Some(0), map[]),
    Node("file2", "F0-2", Scalar, Some(0), map[]),
    Node("dir1", "D1-1", Container, Some(0), map["file1" := 4, "file2" := 5, "dir2" := 6]),
    Node("file1", "F1-1-1", Scalar, Some(3), map[]),
    Node("file2", "F1-1-2", Scalar, Some(3), map[]),
    Node("dir2", "D1-2", Container, Some(3), map["file1" := 7, "file2" := 8]),
    Node("file1", "F1-2-1", Scalar, Some(6), map[]),
    Node("file2", "F1-2-2", Scalar, Some(6), map[])
  ]

  lemma LinkedBuilt0()
    ensures Linked(Built0)
  {
    forall i | 0 <= i < |Built0| ensures NodeLinked(Built0[i], |Built0|) {
      if i == 0 {
      }
    }
  }

  lemma LinkedBuilt1()
    ensures Linked(Built1)
  {
    forall i | 0 <= i < |Built1| ensures NodeLinked(Built1[i], |Built1|) {
      if i == 0 {
      } else if i == 1 {
      }
    }
  }

  lemma LinkedBuilt2()
    ensures Linked(Built2)
  {
    forall i | 0 <= i < |Built2| ensures NodeLinked(Built2[i], |Built2|) {
      if i == 0 {
      } else if i == 1 {
      } else if i == 2 {
      }
    }
  }

  lemma LinkedBuilt3()
    ensures Linked(Built3)
  {
    forall i | 0 <= i < |Built3| ensures NodeLinked(Built3[i], |Built3|) {
      if i == 0 {
      } else if i == 1 {
      } else if i == 2 {
      } else if i == 3 {
      }
    }
  }

  lemma LinkedBuilt4()
    ensures Linked(Built4)
  {
    forall i | 0 <= i < |Built4| ensures NodeLinked(Built4[i], |Built4|) {
      if i == 0 {
      } else if i == 1 {
      } else if i == 2 {
      } else if i == 3 {
      } else if i == 4 {
      }
    }
  }

  lemma LinkedBuilt5()
    ensures Linked(Built5)
  {
    forall i | 0 <= i < |Built5| ensures NodeLinked(Built5[i], |Built5|) {
      if i == 0 {
      } else if i == 1 {
      } else if i == 2 {
      } else if i == 3 {
      } else if i == 4 {
      }
    }
  }

  lemma LinkedBuilt6()
    ensures Linked(Built6)
  {
    forall i | 0 <= i < |Built6| ensures NodeLinked(Built6[i], |Built6|) {
      if i == 0 {
      } else if i == 1 {
      } else if i == 2 {
      } else if i == 3 {
      } else if i == 4 {
      } else if i == 5 {
      }
    }
  }

  lemma LinkedBuilt7()
    ensures Linked(Built7)
  {
    forall i | 0 <= i < |Built7| ensures NodeLinked(Built7[i], |Built7|) {
      if i == 0 {
      } else if i == 1 {
      } else if i == 2 {
      } else if i == 3 {
      } else if i == 4 {
      } else if i == 5 {
      }
    }
  }

  lemma LinkedBuilt8()
    ensures Linked(Built8)
  {
    forall i | 0 <= i < |Built8| ensures NodeLinked(Built8[i], |Built8|) {
      if i == 0 {
      } else if i == 1 {
      } else if i == 2 {
      } else if i == 3 {
      } else if i == 4 {
      } else if i == 5 {
      } else if i == 6 {
      }
    }
  }

  lemma LinkedBuilt9()
    ensures Linked(Built9)
  {
    forall i | 0 <= i < |Built9| ensures NodeLinked(Built9[i], |Built9|) {
      if i == 0 {
      } else if i == 1 {
      } else if i == 2 {
      } else if i == 3 {
      } else if i == 4 {
      } else if i == 5 {
      } else if i == 6 {
      } else if i == 7 {
      }
    }
  }

  lemma LinkedBuilt10()
    ensures Linked(Built10)
  {
    forall i | 0 <= i < |Built10| ensures NodeLinked(Built10[i], |Built10|) {
      if i == 0 {
      } else if i == 1 {
      } else if i == 2 {
      } else if i == 3 {
      } else if i == 4 {
      } else if i == 5 {
      } else if i == 6 {
      } else if i == 7 {
      } else if i == 8 {
      }
    }
  }

  lemma BuildState0()
    ensures NewNodeSpec([], "/", "D0", Container, None).0 == Built0
  {
    var out := NewNodeSpec([], "/", "D0", Container, None).0;
    assert |out| == |Built0|;
    assert forall i :: 0 <= i < |out| ==> out[i] == Built0[i];
  }

  lemma BuildStep0()
    ensures NewNodeSpec([], "/", "D0", Container, None).0 == Built0 && NewNodeSpec([], "/", "D0", Container, None).1 == Success(0)
  {
    LinkedBuilt0();
    BuildState0();
  }

  lemma BuildState1()
    ensures Linked(Built0) && NewNodeSpec(Built0, "file1", "F0-1", Scalar, Some(0)).0 == Built1
  {
    LinkedBuilt0();
    var out := NewNodeSpec(Built0, "file1", "F0-1", Scalar, Some(0)).0;
    assert |out| == |Built1|;
    assert forall i :: 0 <= i < |out| ==> out[i] == Built1[i];
  }

  lemma BuildWalk1()
    ensures Linked(Built1) && Required(Built1, 1) == Success([1, 0])
  {
    LinkedBuilt1();
    var w := [1, 0];
    forall j | 0 <= j < |w| - 1 ensures w[j] < |Built1| && Built1[w[j]].parent == Some(w[j + 1]) {
      if j == 0 {
      }
    }
    assert Chain(Built1, w);
    RequiredIsWalk(Built1, 1, w);
  }

  lemma BuildStep1()
    ensures Linked(Built0) && NewNodeSpec(Built0, "file1", "F0-1", Scalar, Some(0)).0 == Built1 && NewNodeSpec(Built0, "file1", "F0-1", Scalar, Some(0)).1 == Success(1)
  {
    LinkedBuilt0();
    LinkedBuilt1();
    BuildState1();
    BuildWalk1();
  }

  lemma BuildState2()
    ensures Linked(Built1) && NewNodeSpec(Built1, "file2", "F0-2", Scalar, Some(0)).0 == Built2
  {
    LinkedBuilt1();
    var out := NewNodeSpec(Built1, "file2", "F0-2", Scalar, Some(0)).0;
    assert |out| == |Built2|;
    assert forall i :: 0 <= i < |out| ==> out[i] == Built2[i];
  }

  lemma BuildWalk2()
    ensures Linked(Built2) && Required(Built2, 2) == Success([2, 0])
  {
    LinkedBuilt2();
    var w := [2, 0];
    forall j | 0 <= j < |w| - 1 ensures w[j] < |Built2| && Built2[w[j]].parent == Some(w[j + 1]) {
      if j == 0 {
      }
    }
    assert Chain(Built2, w);
    RequiredIsWalk(Built2, 2, w);
  }

  lemma BuildStep2()
    ensures Linked(Built1) && NewNodeSpec(Built1, "file2", "F0-2", Scalar, Some(0)).0 == Built2 && NewNodeSpec(Built1, "file2", "F0-2", Scalar, Some(0)).1 == Success(2)
  {
    LinkedBuilt1();
    LinkedBuilt2();
    BuildState2();
    BuildWalk2();
  }

  lemma BuildState3()
    ensures Linked(Built2) && NewNodeSpec(Built2, "dir1", "D1-1", Container, Some(0)).0 == Built3
  {
    LinkedBuilt2();
    var out := NewNodeSpec(Built2, "dir1", "D1-1", Container, Some(0)).0;
    assert |out| == |Built3|;
    assert forall i :: 0 <= i < |out| ==> out[i] == Built3[i];
  }

  lemma BuildWalk3()
    ensures Linked(Built3) && Required(Built3, 3) == Success([3, 0])
  {
    LinkedBuilt3();
    var w := [3, 0];
    forall j | 0 <= j < |w| - 1 ensures w[j] < |Built3| && Built3[w[j]].parent == Some(w[j + 1]) {
      if j == 0 {
      }
    }
    assert Chain(Built3, w);
    RequiredIsWalk(Built3, 3, w);
  }

  lemma BuildStep3()
    ensures Linked(Built2) && NewNodeSpec(Built2, "dir1", "D1-1", Container, Some(0)).0 == Built3 && NewNodeSpec(Built2, "dir1", "D1-1", Container, Some(0)).1 == Success(3)
  {
    LinkedBuilt2();
    LinkedBuilt3();
    BuildState3();
    BuildWalk3();
  }

  lemma BuildState4()
    ensures Linked(Built3) && NewNodeSpec(Built3, "file1", "F1-1-1", Scalar, None).0 == Built4
  {
    LinkedBuilt3();
    var out := NewNodeSpec(Built3, "file1", "F1-1-1", Scalar, None).0;
    assert |out| == |Built4|;
    assert forall i :: 0 <= i < |out| ==> out[i] == Built4[i];
  }

  lemma BuildStep4()
    ensures Linked(Built3) && NewNodeSpec(Built3, "file1", "F1-1-1", Scalar, None).0 == Built4 && NewNodeSpec(Built3, "file1", "F1-1-1", Scalar, None).1 == Success(4)
  {
    LinkedBuilt3();
    LinkedBuilt4();
    BuildState4();
  }

  lemma BuildState5()
    ensures Linked(Built4) && SetParentSpec(Built4, 4, 3).0 == Built5
  {
    LinkedBuilt4();
    var out := SetParentSpec(Built4, 4, 3).0;
    assert |out| == |Built5|;
    assert forall i :: 0 <= i < |out| ==> out[i] == Built5[i];
  }

  lemma BuildWalk5()
    ensures Linked(Built5) && Required(Built5, 4) == Success([4, 3, 0])
  {
    LinkedBuilt5();
    var w := [4, 3, 0];
    forall j | 0 <= j < |w| - 1 ensures w[j] < |Built5| && Built5[w[j]].parent == Some(w[j + 1]) {
      if j == 0 {
      } else if j == 1 {
      }
    }
    assert Chain(Built5, w);
    RequiredIsWalk(Built5, 4, w);
  }

  lemma BuildStep5()
    ensures Linked(Built4) && SetParentSpec(Built4, 4, 3).0 == Built5 && SetParentSpec(Built4, 4, 3).1 == Success(())
  {
    LinkedBuilt4();
    LinkedBuilt5();
    BuildState5();
    BuildWalk5();
  }

  lemma BuildState6()
    ensures Linked(Built5) && NewNodeSpec(Built5, "file2", "F1-1-2", Scalar, None).0 == Built6
  {
    LinkedBuilt5();
    var out := NewNodeSpec(Built5, "file2", "F1-1-2", Scalar, None).0;
    assert |out| == |Built6|;
    assert forall i :: 0 <= i < |out| ==> out[i] == Built6[i];
  }

  lemma BuildStep6()
    ensures Linked(Built5) && NewNodeSpec(Built5, "file2", "F1-1-2", Scalar, None).0 == Built6 && NewNodeSpec(Built5, "file2", "F1-1-2", Scalar, None).1 == Success(5)
  {
    LinkedBuilt5();
    LinkedBuilt6();
    BuildState6();
  }

  lemma BuildState7()
    ensures Linked(Built6) && SetParentSpec(Built6, 5, 3).0 == Built7
  {
    LinkedBuilt6();
    var out := SetParentSpec(Built6, 5, 3).0;
    assert |out| == |Built7|;
    assert forall i :: 0 <= i < |out| ==> out[i] == Built7[i];
  }

  lemma BuildWalk7()
    ensures Linked(Built7) && Required(Built7, 5) == Success([5, 3, 0])
  {
    LinkedBuilt7();
    var w := [5, 3, 0];
    forall j | 0 <= j < |w| - 1 ensures w[j] < |Built7| && Built7[w[j]].parent == Some(w[j + 1]) {
      if j == 0 {
      } else if j == 1 {
      }
    }
    assert Chain(Built7, w);
    RequiredIsWalk(Built7, 5, w);
  }

  lemma BuildStep7()
    ensures Linked(Built6) && SetParentSpec(Built6, 5, 3).0 == Built7 && SetParentSpec(Built6, 5, 3).1 == Success(())
  {
    LinkedBuilt6();
    LinkedBuilt7();
    BuildState7();
    BuildWalk7();
  }

  lemma BuildState8()
    ensures Linked(Built7) && NewNodeSpec(Built7, "dir2", "D1-2", Container, Some(3)).0 == Built8
  {
    LinkedBuilt7();
    var out := NewNodeSpec(Built7, "dir2", "D1-2", Container, Some(3)).0;
    assert |out| == |Built8|;
    assert forall i :: 0 <= i < |out| ==> out[i] == Built8[i];
  }

  lemma BuildWalk8()
    ensures Linked(Built8) && Required(Built8, 6) == Success([6, 3, 0])
  {
    LinkedBuilt8();
    var w := [6, 3, 0];
    forall j | 0 <= j < |w| - 1 ensures w[j] < |Built8| && Built8[w[j]].parent == Some(w[j + 1]) {
      if j == 0 {
      } else if j == 1 {
      }
    }
    assert Chain(Built8, w);
    RequiredIsWalk(Built8, 6, w);
  }

  lemma BuildStep8()
    ensures Linked(Built7) && NewNodeSpec(Built7, "dir2", "D1-2", Container, Some(3)).0 == Built8 && NewNodeSpec(Built7, "dir2", "D1-2", Container, Some(3)).1 == Success(6)
  {
    LinkedBuilt7();
    LinkedBuilt8();
    BuildState8();
    BuildWalk8();
  }

  lemma BuildState9()
    ensures Linked(Built8) && NewNodeSpec(Built8, "file1", "F1-2-1", Scalar, Some(6)).0 == Built9
  {
    LinkedBuilt8();
    var out := NewNodeSpec(Built8, "file1", "F1-2-1", Scalar, Some(6)).0;
    assert |out| == |Built9|;
    assert forall i :: 0 <= i < |out| ==> out[i] == Built9[i];
  }

  lemma BuildWalk9()
    ensures Linked(Built9) && Required(Built9, 7) == Success([7, 6, 3, 0])
  {
    LinkedBuilt9();
    var w := [7, 6, 3, 0];
    forall j | 0 <= j < |w| - 1 ensures w[j] < |Built9| && Built9[w[j]].parent == Some(w[j + 1]) {
      if j == 0 {
      } else if j == 1 {
      } else if j == 2 {
      }
    }
    assert Chain(Built9, w);
    RequiredIsWalk(Built9, 7, w);
  }

  lemma BuildStep9()
    ensures Linked(Built8) && NewNodeSpec(Built8, "file1", "F1-2-1", Scalar, Some(6)).0 == Built9 && NewNodeSpec(Built8, "file1", "F1-2-1", Scalar, Some(6)).1 == Success(7)
  {
    LinkedBuilt8();
    LinkedBuilt9();
    BuildState9();
    BuildWalk9();
  }

  lemma BuildState10()
    ensures Linked(Built9) && NewNodeSpec(Built9, "file2", "F1-2-2", Scalar, Some(6)).0 == Built10
  {
    LinkedBuilt9();
    var out := NewNodeSpec(Built9, "file2", "F1-2-2", Scalar, Some(6)).0;
    assert |out| == |Built10|;
    assert forall i :: 0 <= i < |out| ==> out[i] == Built10[i];
  }

  lemma BuildWalk10()
    ensures Linked(Built10) && Required(Built10, 8) == Success([8, 6, 3, 0])
  {
    LinkedBuilt10();
    var w := [8, 6, 3, 0];
    forall j | 0 <= j < |w| - 1 ensures w[j] < |Built10| && Built10[w[j]].parent == Some(w[j + 1]) {
      if j == 0 {
      } else if j == 1 {
      } else if j == 2 {
      }
    }
    assert Chain(Built10, w);
    RequiredIsWalk(Built10, 8, w);
  }

  lemma BuildStep10()
    ensures Linked(Built9) && NewNodeSpec(Built9, "file2", "F1-2-2", Scalar, Some(6)).0 == Built10 && NewNodeSpec(Built9, "file2", "F1-2-2", Scalar, Some(6)).1 == Success(8)
  {
    LinkedBuilt9();
    LinkedBuilt10();
    BuildState10();
    BuildWalk10();
  }

  // ---------------------------------------------------------------------------
  // The drawing of the display test (`NORMAL_TREE_DISPLAY`)
  // ---------------------------------------------------------------------------

  /** `NORMAL_TREE_DISPLAY`, line by line, each line as its indentation, its branch and its text. */
  const NormalTreeLines: seq<string> := [
    "/: D0",
    "" + "\U{251c}\U{2500}\U{2500}" + "dir1: D1-1",
    "\U{2502}  " + "\U{251c}\U{2500}\U{2500}" + "dir2: D1-2",
    "\U{2502}  \U{2502}  " + "\U{251c}\U{2500}\U{2500}" + "file1: F1-2-1",
    "\U{2502}  \U{2502}  " + "\U{2514}\U{2500}\U{2500}" + "file2: F1-2-2",
    "\U{2502}  " + "\U{251c}\U{2500}\U{2500}" + "file1: F1-1-1",
    "\U{2502}  " + "\U{2514}\U{2500}\U{2500}" + "file2: F1-1-2",
    "" + "\U{251c}\U{2500}\U{2500}" + "file1: F0-1",
    "" + "\U{2514}\U{2500}\U{2500}" + "file2: F0-2"
  ]

  lemma RootKeys()
    ensures SortedKeys(Built10[0].children.Keys) == ["dir1", "file1", "file2"]
  {
    assert Built10[0].children.Keys == {"file1", "file2", "dir1"};
    assert Below("dir1", "file1") && Below("file1", "file2") && Below("dir1", "file2");
    SortedKeysUnique(["dir1", "file1", "file2"], {"file1", "file2", "dir1"});
  }

  lemma Dir1Keys()
    ensures SortedKeys(Built10[3].children.Keys) == ["dir2", "file1", "file2"]
  {
    assert Built10[3].children.Keys == {"file1", "file2", "dir2"};
    assert Below("dir2", "file1") && Below("file1", "file2") && Below("dir2", "file2");
    SortedKeysUnique(["dir2", "file1", "file2"], {"file1", "file2", "dir2"});
  }

  lemma Dir2Keys()
    ensures SortedKeys(Built10[6].children.Keys) == ["file1", "file2"]
  {
    assert Built10[6].children.Keys == {"file1", "file2"};
    assert Below("file1", "file2");
    SortedKeysUnique(["file1", "file2"], {"file1", "file2"});
  }

  /** A scalar below the top draws its one line. */
  lemma ScalarRow(ns: seq<Node>, n: nat, level: nat, last: bool, header: string, anc: set<nat>)
    requires Linked(ns) && n < |ns| && ns[n].kind == Scalar && n !in anc && level > 0
    ensures Rows(ns, n, level, last, header, anc, 0) == Success([header + (if last then Elbow else Tee) + ShownData(ns[n])])
  {
  }

  /** Node `n`'s children, in sorted name order, are the nodes `ids`. */
  ghost predicate KidsAre(ns: seq<Node>, n: nat, ids: seq<nat>)
  {
    n < |ns| &&
    var keys := SortedKeys(ns[n].children.Keys);
    |keys| == |ids| && forall i :: 0 <= i < |ids| ==> ns[n].children[keys[i]] == ids[i]
  }

  /** The child names of the display test differ where their characters do. */
  lemma NamesDiffer()
    ensures "file1" != "file2" && "dir1" != "file1" && "dir1" != "file2" && "dir2" != "file1" && "dir2" != "file2"
  {
    assert "file1"[4] != "file2"[4];
    assert |"dir1"| != |"file1"| && |"dir2"| != |"file1"|;
  }

  lemma KidsOfRoot()
    ensures KidsAre(Built10, 0, [3, 1, 2])
  {
    RootKeys();
    NamesDiffer();
    var c := Built10[0].children;
    assert c == map["file1" := 1, "file2" := 2, "dir1" := 3];
    assert c["dir1"] == 3 && c["file1"] == 1 && c["file2"] == 2;
  }

  lemma KidsOfDir1()
    ensures KidsAre(Built10, 3, [6, 4, 5])
  {
    Dir1Keys();
    NamesDiffer();
    var c := Built10[3].children;
    assert c == map["file1" := 4, "file2" := 5, "dir2" := 6];
    assert c["dir2"] == 6 && c["file1"] == 4 && c["file2"] == 5;
  }

  lemma KidsOfDir2()
    ensures KidsAre(Built10, 6, [7, 8])
  {
    Dir2Keys();
    NamesDiffer();
    var c := Built10[6].children;
    assert c == map["file1" := 7, "file2" := 8];
    assert c["file1"] == 7 && c["file2"] == 8;
  }

  /** The line `_print_tree` draws for node `n` itself. */
  function RowOf(ns: seq<Node>, n: nat, level: nat, last: bool, header: string): string
    requires n < |ns|
  {
    if level == 0 then header + ShownData(ns[n]) else header + (if last then Elbow else Tee) + ShownData(ns[n])
  }

  /** The header `_print_tree` hands down to the children of a node drawn with `header`. */
  function KidHeader(level: nat, last: bool, header: string): string
  {
    if level == 0 then "" else header + (if last then Blank else Pipe)
  }

  /** The last two turns of the children's loop, over two scalars: a tee line, then an elbow line. */
  lemma LastTwoScalars(ns: seq<Node>, kids: map<string, nat>, keys: seq<string>, i: nat, level: nat, header: string,
                       anc: set<nat>, acc: seq<string>)
    requires Linked(ns) && i + 2 == |keys| && level > 0
    requires (forall k :: k in keys ==> k in kids) && forall k :: k in kids ==> kids[k] < |ns|
    requires ns[kids[keys[i]]].kind == Scalar && ns[kids[keys[i + 1]]].kind == Scalar
    requires kids[keys[i]] !in anc && kids[keys[i + 1]] !in anc
    ensures KidsRows(ns, kids, keys, i, level, header, anc, 0, acc) ==
      Success(acc + [header + Tee + ShownData(ns[kids[keys[i]]]), header + Elbow + ShownData(ns[kids[keys[i + 1]]])])
  {
    var a, b := header + Tee + ShownData(ns[kids[keys[i]]]), header + Elbow + ShownData(ns[kids[keys[i + 1]]]);
    ScalarRow(ns, kids[keys[i]], level, false, header, anc);
    KidsRowsNext(ns, kids, keys, i, level, header, anc, 0, acc, [a]);
    ScalarRow(ns, kids[keys[i + 1]], level, true, header, anc);
    KidsRowsNext(ns, kids, keys, i + 1, level, header, anc, 0, acc + [a], [b]);
    assert acc + [a] + [b] == acc + [a, b];
  }

  /** A container whose two children, in sorted order, are scalars `a`, `b`: its line, a tee line, an elbow line. */
  lemma ContainerOfTwoScalars(ns: seq<Node>, n: nat, level: nat, last: bool, header: string, anc: set<nat>, a: nat, b: nat)
    requires Linked(ns) && n < |ns| && a < |ns| && b < |ns| && ns[n].kind == Container && KidsAre(ns, n, [a, b])
    requires ns[a].kind == Scalar && ns[b].kind == Scalar && n !in anc && a !in anc + {n} && b !in anc + {n}
    ensures Rows(ns, n, level, last, header, anc, 0) == Success([RowOf(ns, n, level, last, header),
      KidHeader(level, last, header) + Tee + ShownData(ns[a]), KidHeader(level, last, header) + Elbow + ShownData(ns[b])])
  {
    var kids := ns[n].children;
    var keys := SortedKeys(kids.Keys);
    var row := RowOf(ns, n, level, last, header);
    RowsOfContainer(ns, n, level, last, header, anc, 0);
    assert kids[keys[0]] == a && kids[keys[1]] == b;
    var kh := KidHeader(level, last, header);
    LastTwoScalars(ns, kids, keys, 0, level + 1, kh, anc + {n}, [row]);
    assert [row] + [kh + Tee + ShownData(ns[a]), kh + Elbow + ShownData(ns[b])] ==
      [row, kh + Tee + ShownData(ns[a]), kh + Elbow + ShownData(ns[b])];
  }

  /** A container's loop after its first child `c`, drawn as `sub`. */
  lemma ContainerAfterFirst(ns: seq<Node>, n: nat, level: nat, last: bool, header: string, anc: set<nat>, c: nat, sub: seq<string>)
    requires Linked(ns) && n < |ns| && c < |ns| && ns[n].kind == Container && n !in anc
    requires |SortedKeys(ns[n].children.Keys)| > 0 && ns[n].children[SortedKeys(ns[n].children.Keys)[0]] == c
    requires Rows(ns, c, level + 1, |SortedKeys(ns[n].children.Keys)| == 1, KidHeader(level, last, header), anc + {n}, 0) == Success(sub)
    ensures var kids := ns[n].children;
      (forall k :: k in kids ==> kids[k] < |ns|) &&
      Rows(ns, n, level, last, header, anc, 0) ==
      KidsRows(ns, kids, SortedKeys(kids.Keys), 1, level + 1, KidHeader(level, last, header), anc + {n}, 0, [RowOf(ns, n, level, last, header)] + sub)
  {
    var kids := ns[n].children;
    var keys := SortedKeys(kids.Keys);
    RowsOfContainer(ns, n, level, last, header, anc, 0);
    KidsRowsNext(ns, kids, keys, 0, level + 1, KidHeader(level, last, header), anc + {n}, 0, [RowOf(ns, n, level, last, header)], sub);
  }

  /** A container whose sorted children are a sub-tree `c` drawn as `sub`, then scalars `a`, `b`. */
  lemma ContainerOfSubAndTwoScalars(ns: seq<Node>, n: nat, level: nat, last: bool, header: string, anc: set<nat>,
                                    c: nat, a: nat, b: nat, sub: seq<string>)
    requires Linked(ns) && n < |ns| && c < |ns| && a < |ns| && b < |ns| && ns[n].kind == Container && KidsAre(ns, n, [c, a, b])
    requires ns[a].kind == Scalar && ns[b].kind == Scalar && n !in anc && a !in anc + {n} && b !in anc + {n}
    requires Rows(ns, c, level + 1, false, KidHeader(level, last, header), anc + {n}, 0) == Success(sub)
    ensures Rows(ns, n, level, last, header, anc, 0) == Success([RowOf(ns, n, level, last, header)] + sub +
      [KidHeader(level, last, header) + Tee + ShownData(ns[a]), KidHeader(level, last, header) + Elbow + ShownData(ns[b])])
  {
    var kids := ns[n].children;
    var keys := SortedKeys(kids.Keys);
    assert kids[keys[0]] == c && kids[keys[1]] == a && kids[keys[2]] == b;
    ContainerAfterFirst(ns, n, level, last, header, anc, c, sub);
    LastTwoScalars(ns, kids, keys, 1, level + 1, KidHeader(level, last, header), anc + {n}, [RowOf(ns, n, level, last, header)] + sub);
  }

  /** The shape of the display test's store: nine nodes, `/` over `dir1`, `file1`, `file2`, and so on down. */
  ghost predicate DisplayShape(ns: seq<Node>)
  {
    Linked(ns) && |ns| == 9 &&
    ns[0].kind == Container && ns[3].kind == Container && ns[6].kind == Container &&
    ns[1].kind == Scalar && ns[2].kind == Scalar && ns[4].kind == Scalar && ns[5].kind == Scalar &&
    ns[7].kind == Scalar && ns[8].kind == Scalar &&
    KidsAre(ns, 0, [3, 1, 2]) && KidsAre(ns, 3, [6, 4, 5]) && KidsAre(ns, 6, [7, 8])
  }

  /** The lines drawn for a store of that shape, in the renderer's own terms. */
  function ShapeLines(ns: seq<Node>): seq<string>
    requires |ns| == 9
  {
    var h1 := KidHeader(0, false, "");
    var h2 := KidHeader(1, false, h1);
    var h3 := KidHeader(2, false, h2);
    [RowOf(ns, 0, 0, false, ""), RowOf(ns, 3, 1, false, h1), RowOf(ns, 6, 2, false, h2),
     h3 + Tee + ShownData(ns[7]), h3 + Elbow + ShownData(ns[8]),
     h2 + Tee + ShownData(ns[4]), h2 + Elbow + ShownData(ns[5]),
     h1 + Tee + ShownData(ns[1]), h1 + Elbow + ShownData(ns[2])]
  }

  /** The drawing of a store of that shape: `dir2`'s sub-tree inside `dir1`'s inside the root's. */
  lemma ShapeRows(ns: seq<Node>)
    requires DisplayShape(ns)
    ensures Rows(ns, 0, 0, false, "", {}, 0) == Success(ShapeLines(ns))
  {
    var h1 := KidHeader(0, false, "");
    var h2 := KidHeader(1, false, h1);
    var h3 := KidHeader(2, false, h2);
    var a1: set<nat> := {} + {0};
    var a2: set<nat> := a1 + {3};
    ContainerOfTwoScalars(ns, 6, 2, false, h2, a2, 7, 8);
    var sub2 := [RowOf(ns, 6, 2, false, h2), h3 + Tee + ShownData(ns[7]), h3 + Elbow + ShownData(ns[8])];
    ContainerOfSubAndTwoScalars(ns, 3, 1, false, h1, a1, 6, 4, 5, sub2);
    var sub1 := [RowOf(ns, 3, 1, false, h1)] + sub2 + [h2 + Tee + ShownData(ns[4]), h2 + Elbow + ShownData(ns[5])];
    ContainerOfSubAndTwoScalars(ns, 0, 0, false, "", {}, 3, 1, 2, sub1);
    assert [RowOf(ns, 0, 0, false, "")] + sub1 + [h1 + Tee + ShownData(ns[1]), h1 + Elbow + ShownData(ns[2])] == ShapeLines(ns);
  }

  lemma BuiltHasDisplayShape()
    ensures DisplayShape(Built10)
  {
    LinkedBuilt10();
    KidsOfRoot();
    KidsOfDir1();
    KidsOfDir2();
  }

  /** The indentation `_print_tree` hands down at the first three levels, character by character. */
  lemma Headers()
    ensures KidHeader(0, false, "") == ""
    ensures KidHeader(1, false, KidHeader(0, false, "")) == "\U{2502}  "
    ensures KidHeader(2, false, KidHeader(1, false, KidHeader(0, false, ""))) == "\U{2502}  \U{2502}  "
  {
    assert "" + Pipe == Pipe;
  }

  lemma Line0(nd: Node)
    requires nd.name == "/" && nd.eigenvalue == "D0"
    ensures "" + ShownData(nd) == NormalTreeLines[0]
  {
    assert ShownData(nd) == "/: D0";
  }

  lemma Line1(nd: Node)
    requires nd.name == "dir1" && nd.eigenvalue == "D1-1"
    ensures KidHeader(0, false, "") + Tee + ShownData(nd) == NormalTreeLines[1]
  {
    Headers();
    assert ShownData(nd) == "dir1: D1-1";
  }

  lemma Line2(nd: Node)
    requires nd.name == "dir2" && nd.eigenvalue == "D1-2"
    ensures KidHeader(1, false, KidHeader(0, false, "")) + Tee + ShownData(nd) == NormalTreeLines[2]
  {
    Headers();
    assert ShownData(nd) == "dir2: D1-2";
  }

  lemma Line3(nd: Node)
    requires nd.name == "file1" && nd.eigenvalue == "F1-2-1"
    ensures KidHeader(2, false, KidHeader(1, false, KidHeader(0, false, ""))) + Tee + ShownData(nd) == NormalTreeLines[3]
  {
    Headers();
    assert ShownData(nd) == "file1: F1-2-1";
  }

  lemma Line4(nd: Node)
    requires nd.name == "file2" && nd.eigenvalue == "F1-2-2"
    ensures KidHeader(2, false, KidHeader(1, false, KidHeader(0, false, ""))) + Elbow + ShownData(nd) == NormalTreeLines[4]
  {
    Headers();
    assert ShownData(nd) == "file2: F1-2-2";
  }

  lemma Line5(nd: Node)
    requires nd.name == "file1" && nd.eigenvalue == "F1-1-1"
    ensures KidHeader(1, false, KidHeader(0, false, "")) + Tee + ShownData(nd) == NormalTreeLines[5]
  {
    Headers();
    assert ShownData(nd) == "file1: F1-1-1";
  }

  lemma Line6(nd: Node)
    requires nd.name == "file2" && nd.eigenvalue == "F1-1-2"
    ensures KidHeader(1, false, KidHeader(0, false, "")) + Elbow + ShownData(nd) == NormalTreeLines[6]
  {
    Headers();
    assert ShownData(nd) == "file2: F1-1-2";
  }

  lemma Line7(nd: Node)
    requires nd.name == "file1" && nd.eigenvalue == "F0-1"
    ensures KidHeader(0, false, "") + Tee + ShownData(nd) == NormalTreeLines[7]
  {
    Headers();
    assert ShownData(nd) == "file1: F0-1";
  }

  lemma Line8(nd: Node)
    requires nd.name == "file2" && nd.eigenvalue == "F0-2"
    ensures KidHeader(0, false, "") + Elbow + ShownData(nd) == NormalTreeLines[8]
  {
    Headers();
    assert ShownData(nd) == "file2: F0-2";
  }

  /** The drawing of the display test's store is `NORMAL_TREE_DISPLAY`, line for line. */
  lemma BuiltLines()
    ensures ShapeLines(Built10) == NormalTreeLines
  {
    var b := Built10;
    Line0(b[0]); Line1(b[3]); Line2(b[6]); Line3(b[7]); Line4(b[8]); Line5(b[4]); Line6(b[5]); Line7(b[1]); Line8(b[2]);
    var w := ShapeLines(b);
    assert |w| == 9 && forall i :: 0 <= i < 9 ==> w[i] == NormalTreeLines[i];
  }

  /** `nd_root.output_tree_mode() == NORMAL_TREE_DISPLAY` */
  lemma DisplayWithTreeMode()
    ensures Linked(Built10) && TreeModeSpec(Built10, 0, 0) == Success(JoinLines(NormalTreeLines))
  {
    BuiltHasDisplayShape();
    ShapeRows(Built10);
    BuiltLines();
  }

  // ---------------------------------------------------------------------------
  // `is_root` and `path` in the display test
  // ---------------------------------------------------------------------------

  /** `nd_root.is_root` holds; `nd_dir1.is_root` and `nd_dir2.is_root` do not. */
  lemma RootsOfDisplay()
    ensures Built10[0].parent.None? && Built10[3].parent.Some? && Built10[6].parent.Some?
  {
  }

  lemma WalkOfRootFile()
    ensures Linked(Built10) && Required(Built10, 1) == Success([1, 0])
  {
    LinkedBuilt10();
    var w := [1, 0];
    forall j | 0 <= j < |w| - 1 ensures w[j] < |Built10| && Built10[w[j]].parent == Some(w[j + 1]) {
    }
    assert Chain(Built10, w);
    RequiredIsWalk(Built10, 1, w);
  }

  /** `nd_file1.path` names `/`, `file1`. */
  lemma PathOfRootFile()
    ensures Linked(Built10) && Required(Built10, 1).Success? &&
      NamesOf(Built10, Reverse(Required(Built10, 1).value)) == ["/", "file1"]
  {
    WalkOfRootFile();
    assert Reverse([1, 0]) == [0, 1];
  }

  /** `nd_file2.path` names `/`, `dir1`, `dir2`, `file2`. */
  lemma PathOfDeepFile()
    ensures Linked(Built10) && Required(Built10, 8).Success? &&
      NamesOf(Built10, Reverse(Required(Built10, 8).value)) == ["/", "dir1", "dir2", "file2"]
  {
    BuildWalk10();
    assert Reverse([8, 6, 3, 0]) == [0, 3, 6, 8];
  }

  // ---------------------------------------------------------------------------
  // `test_circular_dependency`
  // ---------------------------------------------------------------------------

  const CircA: Node := Node("a", "0", Container, None, map[])
  const CircB: Node := Node("b", "1", Container, None, map[])
  const CircLinked: seq<Node> := [CircA.(parent := Some(1)), CircB.(children := map["a" := 0])]
  const CircClosed: seq<Node> := [CircA.(parent := Some(1), children := map["b" := 1]), CircB.(parent := Some(0), children := map["a" := 0])]

  lemma LinkedCirc()
    ensures Linked([CircA]) && Linked([CircA, CircB]) && Linked(CircLinked) && Linked(CircClosed)
  {
    assert NodeLinked([CircA][0], 1);
    assert NodeLinked([CircA, CircB][0], 2) && NodeLinked([CircA, CircB][1], 2);
    assert NodeLinked(CircLinked[0], 2) && NodeLinked(CircLinked[1], 2);
    assert NodeLinked(CircClosed[0], 2) && NodeLinked(CircClosed[1], 2);
  }

  /** The two containers, then `nd_a.parent = nd_b`. */
  lemma CircularSetup()
    ensures NewNodeSpec([], "a", "0", Container, None) == ([CircA], Success(0))
    ensures Linked([CircA]) && NewNodeSpec([CircA], "b", "1", Container, None) == ([CircA, CircB], Success(1))
    ensures Linked([CircA, CircB]) && SetParentSpec([CircA, CircB], 0, 1) == (CircLinked, Success(()))
  {
    LinkedCirc();
    assert [] + [CircA] == [CircA];
    assert [CircA] + [CircB] == [CircA, CircB];
    var out := SetParentSpec([CircA, CircB], 0, 1).0;
    assert |out| == 2 && out[0] == CircLinked[0] && out[1] == CircLinked[1];
    assert out == CircLinked;
    assert WalkToRoot(CircLinked, 0, [0, 1]);
    RequiredIsWalk(CircLinked, 0, [0, 1]);
    assert SetParentSpec([CircA, CircB], 0, 1).1 == Success(());
  }

  /** `nd_b.parent = nd_a` then raises with `circular_nodes == ['b', 'a']`, the links already made. */
  lemma CircularParents()
    ensures Linked(CircLinked) &&
      SetParentSpec(CircLinked, 1, 0) == (CircClosed, Failure(CircularDependency(["b", "a"])))
  {
    LinkedCirc();
    var out := SetParentSpec(CircLinked, 1, 0).0;
    assert |out| == 2 && out[0] == CircClosed[0] && out[1] == CircClosed[1];
    assert out == CircClosed;
    assert WalkIntoCycle(CircClosed, 1, [1, 0]);
    CircularIsCycle(CircClosed, 1, [1, 0]);
    assert NamesOf(CircClosed, [1, 0]) == ["b", "a"];
    assert Required(CircClosed, 1) == Failure(CircularDependency(["b", "a"]));
    assert SetParentSpec(CircLinked, 1, 0).1 == Failure(CircularDependency(["b", "a"]));
  }
}
