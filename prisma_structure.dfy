/**
 * prisma-structure.tsx: the `prisma/` schema layout drawn with the shared
 * `FileTree` renderer.
 */
module PrismaStructure {
  import opened Wrappers
  import opened FileTree

  const Schema: Node := Leaf("schema.prisma", "Main config with datasource and generator")
  const Auth: Node := Leaf("auth.prisma", "User, Account, tokens")
  const Settings: Node := Leaf("config.prisma", "Application settings")
  const Models: Node := Dir("models/", "Schema files organized by domain", [Auth, Settings])
  /** A directory written without a `children` field. */
  const Migrations: Node := Folder("migrations/", "Auto-generated migration files")
  const Seed: Node := Leaf("seed.ts", "Database seeding script")

  /** `prismaStructure`. */
  const PrismaTree: Node :=
    Dir("prisma/", "Database schema and migrations", [Schema, Models, Migrations, Seed])

  /** The page's rows, one per node in depth-first order, with the context each was rendered in. */
  lemma PrismaRows(sep: string)
    ensures Render(sep, PrismaTree) == [
      RowOf(sep, PrismaTree, 0, false, []),
      RowOf(sep, Schema, 1, false, [false]),
      RowOf(sep, Models, 1, false, [false]),
      RowOf(sep, Auth, 2, false, [false, false]),
      RowOf(sep, Settings, 2, true, [false, false]),
      RowOf(sep, Migrations, 1, false, [false]),
      RowOf(sep, Seed, 1, true, [false])]
  {
    RenderUnfold(sep, PrismaTree);
    PrismaKidRows(sep);
  }

  /** The rows below the root: the four children's blocks in order. */
  lemma PrismaKidRows(sep: string)
    ensures ChildRows(sep, PrismaTree.children.nodes, 1, [false]) == [
      RowOf(sep, Schema, 1, false, [false]),
      RowOf(sep, Models, 1, false, [false]),
      RowOf(sep, Auth, 2, false, [false, false]),
      RowOf(sep, Settings, 2, true, [false, false]),
      RowOf(sep, Migrations, 1, false, [false]),
      RowOf(sep, Seed, 1, true, [false])]
  {
    assert PrismaTree.children.nodes == [Schema, Models, Migrations, Seed];
    LeafRows(sep, Schema, 1, false, [false]);
    LeafRows(sep, Migrations, 1, false, [false]);
    LeafRows(sep, Seed, 1, true, [false]);
    var rModels := ModelsBlock(sep);
    ChildRowsCons(sep, Seed, [], 1, [false]);
    ChildRowsCons(sep, Migrations, [Seed], 1, [false]);
    ChildRowsCons(sep, Models, [Migrations, Seed], 1, [false]);
    ChildRowsCons(sep, Schema, [Models, Migrations, Seed], 1, [false]);
  }

  /** The block of `models/`: its own row, then its two files one level deeper. */
  lemma ModelsBlock(sep: string) returns (rows: seq<Row>)
    ensures rows == Rows(sep, Models, 1, false, [false])
    ensures rows == [
      RowOf(sep, Models, 1, false, [false]),
      RowOf(sep, Auth, 2, false, [false, false]),
      RowOf(sep, Settings, 2, true, [false, false])]
  {
    assert Models.children.nodes == [Auth, Settings];
    assert [false] + [false] == [false, false];
    LeafRows(sep, Auth, 2, false, [false, false]);
    LeafRows(sep, Settings, 2, true, [false, false]);
    ChildRowsCons(sep, Settings, [], 2, [false, false]);
    ChildRowsCons(sep, Auth, [Settings], 2, [false, false]);
    rows := Rows(sep, Models, 1, false, [false]);
  }

  /** Seven rows for seven nodes; the deepest level reached is 2. */
  lemma PrismaShape(sep: string)
    ensures |Render(sep, PrismaTree)| == 7
    ensures forall i :: 0 <= i < 7 ==> Render(sep, PrismaTree)[i].level <= 2
    ensures Render(sep, PrismaTree)[3].level == 2
  {
    PrismaRows(sep);
  }

  /**
   * `migrations/` has no `children` field: its row has the folder icon and bold
   * name of a directory but no children container.
   */
  lemma MigrationsRow(sep: string)
    ensures |Render(sep, PrismaTree)| == 7
    ensures var r := Render(sep, PrismaTree)[5];
      && r.name == "migrations/" && r.icon == FolderIcon && r.bold && !r.container
      && r.suffix == Some(sep + "Auto-generated migration files")
  {
    PrismaRows(sep);
  }

  /** `seed.ts` is the root's last child: it is flagged last and draws no line at all, in particular none at x = 4. */
  lemma SeedIsLast(sep: string)
    ensures |Render(sep, PrismaTree)| == 7
    ensures var r := Render(sep, PrismaTree)[6];
      r.name == "seed.ts" && r.isLast && r.lines == {} && Column(1) == 4
  {
    PrismaRows(sep);
    var lines := Connectors(1, true, [false]);
    assert Column(1) !in lines;
    assert lines == {};
  }

  /**
   * The two model files sit at level 2 and draw the line at x = 4 (their
   * ancestor column, as the root defaults to not last) and, for `auth.prisma`,
   * its own line at x = 28.
   */
  lemma ModelFilesLines(sep: string)
    ensures |Render(sep, PrismaTree)| == 7
    ensures var rows := Render(sep, PrismaTree);
      && rows[3].name == "auth.prisma" && rows[3].lines == {4, 28}
      && rows[4].name == "config.prisma" && rows[4].lines == {4}
  {
    PrismaRows(sep);
    var authLines := Connectors(2, false, [false, false]);
    assert Column(1) in authLines && Column(2) in authLines;
    assert authLines == {4, 28};
    var settingsLines := Connectors(2, true, [false, false]);
    assert Column(1) in settingsLines && Column(2) !in settingsLines;
    assert settingsLines == {4};
  }
}
