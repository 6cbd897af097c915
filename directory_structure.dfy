/**
 * directory-structure.tsx: the `kun/` repository layout drawn with the shared
 * `FileTree` renderer.
 */
module DirectoryStructure {
  import opened FileTree

  /** `topLevelStructure`, built from its five top-level directories. */
  const KunTree: Node :=
    Dir("kun/", "Remote AI Development Infrastructure", [Scripts, Config, Docker, Docs, Src])

  const Scripts: Node :=
    Dir("scripts/", "Setup and maintenance scripts", [
      Folder("phase1/", "Individual developer setup"),
      Folder("phase2/", "Team server setup"),
      Folder("phase3/", "Commercial platform setup"),
      Folder("monitoring/", "Health check scripts")
    ])

  const Config: Node :=
    Dir("config/", "Configuration templates", [
      Folder("tailscale/", "Tailscale ACL configs"),
      Folder("tmux/", "tmux session configs")
    ])

  const Docker: Node :=
    Dir("docker/", "Container configurations", [
      Leaf("Dockerfile", "Development container"),
      Leaf("docker-compose.yml", "Multi-container setup")
    ])

  const Docs: Node :=
    Dir("docs/", "Project documentation", [
      Leaf("PROJECT-BRIEF.md", "Vision and goals"),
      Leaf("ARCHITECTURE.md", "System design"),
      Leaf("PRD.md", "Requirements"),
      Leaf("EPICS.md", "User stories")
    ])

  const Src: Node :=
    Dir("src/", "Next.js documentation site", [
      Folder("app/", "App Router pages"),
      Folder("components/", "React components")
    ])

  /** The five top-level directories each hold childless nodes only. */
  lemma KunKids()
    ensures KunTree.children.nodes == [Scripts, Config, Docker, Docs, Src]
    ensures Depth(Scripts) == 1 && |Preorder(Scripts)| == 5
    ensures Depth(Config) == 1 && |Preorder(Config)| == 3
    ensures Depth(Docker) == 1 && |Preorder(Docker)| == 3
    ensures Depth(Docs) == 1 && |Preorder(Docs)| == 5
    ensures Depth(Src) == 1 && |Preorder(Src)| == 3
  {
    FlatDir(Scripts);
    FlatDir(Config);
    FrontKids();
  }

  lemma FrontKids()
    ensures Depth(Docker) == 1 && |Preorder(Docker)| == 3
    ensures Depth(Docs) == 1 && |Preorder(Docs)| == 5
    ensures Depth(Src) == 1 && |Preorder(Src)| == 3
  {
    FlatDir(Docker);
    FlatDir(Docs);
    FlatDir(Src);
  }

  /** The tree reaches two levels below `kun/`. */
  lemma KunDepth()
    ensures Depth(KunTree) == 2
  {
    KunKids();
    var kids := [Scripts, Config, Docker, Docs, Src];
    UniformDepth(kids, 1);
  }

  /** Every node of the literal carries a non-empty description. */
  lemma KunDescribed()
    ensures Every(KunTree, Described)
  {
    var kids := [Scripts, Config, Docker, Docs, Src];
    assert KunTree.children.nodes == kids;
    forall k | k in kids ensures Every(k, Described) {
      EveryInAll(k.children.nodes, Described);
    }
    EveryInAll(kids, Described);
  }

  /** The literal has 20 nodes. */
  lemma KunSize()
    ensures |Preorder(KunTree)| == 20
  {
    KunKids();
    ListSizes([Scripts, Config, Docker, Docs, Src], [5, 3, 3, 5, 3]);
  }

  /**
   * One row per node: 20 rows, none deeper than level 2, each with its node's
   * description as a suffix.
   */
  lemma KunRows(sep: string)
    ensures |Render(sep, KunTree)| == 20
    ensures forall i :: 0 <= i < |Render(sep, KunTree)| ==>
      Render(sep, KunTree)[i].level <= 2 && Render(sep, KunTree)[i].suffix.Some?
  {
    RowsFollowPreorder(sep, KunTree, 0, false, []);
    KunSize();
    RowsWithinDepth(sep, KunTree, 0, false, []);
    KunDepth();
    KunDescribed();
    DescribedTreeRowsHaveSuffix(sep, KunTree);
  }

  /**
   * `src/` is the root's last child, yet its children are drawn with the line
   * at x = 4 that belongs to level 1, which the intended rule leaves out.
   */
  lemma SourceFoldersCarryStrayLine(sep: string)
    ensures |Render(sep, KunTree)| == 20
    ensures var rows := Render(sep, KunTree);
      && rows[17].name == "src/" && rows[17].level == 1 && rows[17].isLast
      && rows[18].name == "app/" && rows[18].lines == {Column(1), Column(2)}
      && |rows[18].ancestry| == rows[18].level
      && IntendedConnectors(rows[18].level, rows[18].isLast, rows[18].ancestry) == {Column(2)}
  {
    KunRows(sep);
    KunLastBlock(sep);
    var rows := Render(sep, KunTree);
    var last := Rows(sep, Src, 1, true, [false]);
    assert rows[17] == last[0] && rows[18] == last[1];
    assert last[1] == RowOf(sep, Folder("app/", "App Router pages"), 2, false, [false, true]);
    var lines := Connectors(2, false, [false, true]);
    assert Column(1) in lines;
    assert lines == {Column(1), Column(2)};
  }

  /** The last three rows are the block of `src/`, rendered as the last child of the root. */
  lemma KunLastBlock(sep: string)
    ensures |Render(sep, KunTree)| == 20
    ensures Render(sep, KunTree)[17..] == Rows(sep, Src, 1, true, [false])
  {
    KunKids();
    KunSize();
    RootLastBlock(sep, KunTree);
    FrontSize();
  }

  /** The four directories before `src/` account for 16 nodes. */
  lemma FrontSize()
    ensures |KunTree.children.nodes| == 5
    ensures |PreorderList(KunTree.children.nodes[..4])| == 16
  {
    KunKids();
    var front := [Scripts, Config, Docker, Docs];
    assert KunTree.children.nodes[..4] == front;
    ListSizes(front, [5, 3, 3, 5]);
  }
}
