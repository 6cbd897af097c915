/**
 * structure.tsx: the three-phase architecture of `kun/` drawn with the shared
 * `FileTree` renderer.
 */
module Structure {
  import opened FileTree

  const Phase1: Node :=
    Dir("Phase 1: Individual", "Personal remote setup", [
      Leaf("tailscale up --ssh", "VPN with SSH"),
      Leaf("tmux new-session", "Persistent sessions"),
      Leaf("termius", "Mobile access"),
      Leaf("claude-code", "AI CLI")
    ])

  const Phase2: Node :=
    Dir("Phase 2: Team Server", "10+ developers", [
      Leaf("multi-user accounts", "User management"),
      Leaf("tailscale ACLs", "Access control"),
      Leaf("/etc/claude-code/", "Shared config"),
      Leaf("systemd services", "Auto-start"),
      Leaf("netdata", "Monitoring")
    ])

  const Phase3: Node :=
    Dir("Phase 3: Commercial", "Rental platform", [
      Leaf("docker isolation", "Container per user"),
      Leaf("usage metering", "Track resources"),
      Leaf("stripe billing", "Payments"),
      Leaf("pattern marketplace", "Sell patterns")
    ])

  /** `topLevelStructure` of this page. */
  const PhaseTree: Node := Dir("kun/", "Three-phase architecture", [Phase1, Phase2, Phase3])

  /** The three phases each hold childless nodes only. */
  lemma PhaseKids()
    ensures PhaseTree.children.nodes == [Phase1, Phase2, Phase3]
    ensures Depth(Phase1) == 1 && |Preorder(Phase1)| == 5
    ensures Depth(Phase2) == 1 && |Preorder(Phase2)| == 6
    ensures Depth(Phase3) == 1 && |Preorder(Phase3)| == 5
  {
    FlatDir(Phase1);
    FlatDir(Phase2);
    FlatDir(Phase3);
  }

  lemma PhaseDepth()
    ensures Depth(PhaseTree) == 2
  {
    PhaseKids();
    UniformDepth([Phase1, Phase2, Phase3], 1);
  }

  lemma PhaseSize()
    ensures |Preorder(PhaseTree)| == 17
  {
    PhaseKids();
    ListSizes([Phase1, Phase2, Phase3], [5, 6, 5]);
  }

  /** Every node has a non-empty description, and every node without children is a file. */
  lemma PhaseNodes()
    ensures Every(PhaseTree, Described) && Every(PhaseTree, LeafIsFile)
  {
    PhaseDescribed();
    PhaseLeavesAreFiles();
  }

  lemma PhaseDescribed()
    ensures Every(PhaseTree, Described)
  {
    var kids := [Phase1, Phase2, Phase3];
    assert PhaseTree.children.nodes == kids;
    forall k | k in kids ensures Every(k, Described) {
      EveryInAll(k.children.nodes, Described);
    }
    EveryInAll(kids, Described);
  }

  lemma PhaseLeavesAreFiles()
    ensures Every(PhaseTree, LeafIsFile)
  {
    var kids := [Phase1, Phase2, Phase3];
    assert PhaseTree.children.nodes == kids;
    forall k | k in kids ensures Every(k, LeafIsFile) {
      EveryInAll(k.children.nodes, LeafIsFile);
    }
    EveryInAll(kids, LeafIsFile);
  }

  /**
   * 17 rows, none deeper than level 2; every row carries a description
   * suffix, and every row without a children container is a plain file row.
   */
  lemma PhaseRows(sep: string)
    ensures |Render(sep, PhaseTree)| == 17
    ensures forall i :: 0 <= i < |Render(sep, PhaseTree)| ==>
      && Render(sep, PhaseTree)[i].level <= 2
      && Render(sep, PhaseTree)[i].suffix.Some?
      && (!Render(sep, PhaseTree)[i].container ==>
            Render(sep, PhaseTree)[i].icon == FileIcon && !Render(sep, PhaseTree)[i].bold)
  {
    RowsFollowPreorder(sep, PhaseTree, 0, false, []);
    PhaseSize();
    RowsWithinDepth(sep, PhaseTree, 0, false, []);
    PhaseDepth();
    PhaseNodes();
    DescribedTreeRowsHaveSuffix(sep, PhaseTree);
    LeafRowsArePlainFiles(sep, PhaseTree);
  }

  /**
   * The three phases are the root's children in order; "Phase 3: Commercial"
   * is the last, so it draws no line of its own, while the other two draw
   * theirs at x = 4.
   */
  lemma PhaseThreeIsLast(sep: string)
    ensures |Render(sep, PhaseTree)| > 0
    ensures var heads := AtLevel(Render(sep, PhaseTree)[1..], 1);
      && |heads| == 3
      && heads[0].name == "Phase 1: Individual" && heads[0].lines == {4}
      && heads[1].name == "Phase 2: Team Server" && heads[1].lines == {4}
      && heads[2].name == "Phase 3: Commercial" && heads[2].isLast && heads[2].lines == {}
  {
    var kids := [Phase1, Phase2, Phase3];
    assert PhaseTree.children.nodes == kids;
    NodeChildren(sep, PhaseTree, 0, false, []);
    var heads := AtLevel(Render(sep, PhaseTree)[1..], 1);
    assert [] + [false] == [false];
    assert heads[0] == RowOf(sep, Phase1, 1, false, [false]);
    assert heads[1] == RowOf(sep, Phase2, 1, false, [false]);
    assert heads[2] == RowOf(sep, Phase3, 1, true, [false]);
    var open := Connectors(1, false, [false]);
    assert Column(1) in open;
    assert open == {4};
    var closed := Connectors(1, true, [false]);
    assert Column(1) !in closed;
    assert closed == {};
  }
}
