# kun documentation site: the computations inside its components

The kun site is a bilingual (English/Arabic) documentation and marketing
site. Its React components are almost all markup, but a few of them compute
something. This project models those computations in Dafny, one module per
component file, and proves what they do.

- **`FileTree`** draws a directory tree. It is copied verbatim into
  `directory-structure.tsx`, `structure.tsx` and `prisma-structure.tsx`.
  Every node becomes a row with an indentation, a set of vertical connector
  lines, an icon, a bold flag and an optional description.
- **`FlowChart`** draws one row per edge. It looks nodes up by id and falls
  back to the raw id, and to a default icon that depends on the side of the
  arrow.
- **`chunk`** cuts a list into rows of a fixed size; `BuildingBlocks` uses it.
- **`StepperFlow`** numbers steps and draws connectors between them.
- **`DocsNav`** turns a pathname into a breadcrumb trail.
- **`LangSwitcher`** detects the locale in the path and rewrites the path to
  the other locale.
- **`mdx-components.tsx`** provides:
  - the anchor slug of `h2` headings;
  - the three-way `code` renderer;
  - `useMDXComponents`, which merges the caller's components over the
    built-in table.
- **`ComponentSource`** infers a language for highlighting and chooses the
  caption and wrapper.
- **`DocsSidebar`** lists eight fixed links and marks one of them active.

The markup is abstracted to records such as `FileTree.Row`,
`FlowChart.EdgeRow`, `StepperFlow.StepRow`, `DocsNav.NavLink` and
`DocsSidebar.MenuItem`. The router's `usePathname()` becomes a `pathname`
parameter. JavaScript strings are `seq<char>`. `Strings` holds `split`,
`join`, `startsWith`, `replace` with a string pattern, ASCII case
mapping, and the truthiness test (present and non-empty) shared by the
optional-string props.

Two behaviours of the tree renderer that a reader might not expect:

- The pages call `<FileTree item={...} />`, so the root gets the default
  `isLast = false` (directory-structure.tsx:141, :206). As a result, every
  row at level 2 or deeper draws the line at x = 4
  (`FileTree.DeepRowsCarryColumnFour`).
- A children container is rendered whenever a `children` field exists,
  whatever the node's type (directory-structure.tsx:187). The model follows
  the field: `FileTree.Depicts` ties `container` to `children.Present?`, not
  to the type.

## Model

| member | source | states |
|---|---|---|
| Strings.Split | src/components/docs/docs-nav.tsx:13 | `split` gives at least one piece, and no piece contains the separator |
| Strings.JoinSplit | src/components/docs/docs-nav.tsx:21-24 | joining the pieces of a split with the same separator gives the string back |
| Strings.SplitJoin | src/components/docs/docs-nav.tsx:17 | splitting a join of separator-free pieces gives the pieces back |
| Strings.JoinAppend | src/components/docs/docs-nav.tsx:17 | the join of two non-empty lists is the two joins with one separator between them |
| Strings.IndexOf | src/components/template/lang-switcher.tsx:33 | the result is the first position where the pattern occurs, or none when it never occurs; a prefix is found at 0 |
| Strings.ReplaceFirst | src/components/template/lang-switcher.tsx:33 | `replace` of a pattern the string starts with swaps just that prefix; a string without the pattern is unchanged |
| Strings.UpperChar | src/components/docs/docs-nav.tsx:23 | a lower-case ASCII letter becomes its capital (32 code points down); every other character is kept |
| Strings.LowerChar | src/mdx-components.tsx:42 | an upper-case ASCII letter becomes its small letter (32 code points up); every other character is kept |
| Strings.Lower | src/mdx-components.tsx:42 | `toLowerCase` keeps the length and lowers each character in place |
| FileTree.Connectors | src/components/docs/directory-structure.tsx:150-166 | no line at level 0; the line at the column of level m (1 <= m < level) is present iff ancestry flag m-1 is false; the own line at `level*24-20` is present iff not last; no other lines |
| FileTree.ParentFlagIgnored | src/components/docs/directory-structure.tsx:152 | `slice(0, -1)`: the last ancestry flag (the parent's `isLast`) never changes the lines |
| FileTree.FileIconOf | src/components/docs/directory-structure.tsx:131-136 | the folder icon exactly for a directory |
| FileTree.Suffix | src/components/docs/directory-structure.tsx:180-184 | a description suffix exactly when the description is present and non-empty, and then it is the separator followed by the description |
| FileTree.RowsFollowPreorder | src/components/docs/directory-structure.tsx:169-197 | one row per node in depth-first order; each row shows its own node's name, icon and bold by type, suffix by description, and container by the presence of `children` |
| FileTree.RowsContext | src/components/docs/directory-structure.tsx:138-197 | every row is indented `level*24`, its ancestry is as long as its level, and its lines follow from them; every later row of a subtree is deeper and inherits the subtree's ancestry plus the root's `isLast` |
| FileTree.ChildrenInOrder | src/components/docs/directory-structure.tsx:189-195 | the rows directly inside a children container are the children, one each, in array order, at that level and with the parent's ancestry, `isLast` set for the final child only |
| FileTree.RenderLength | src/components/docs/directory-structure.tsx:169-197 | the page draws exactly one row per node |
| FileTree.RootLastBlock | src/components/docs/directory-structure.tsx:189-206 | the drawing ends with the block of the root's last child, drawn at level 1 as the last sibling, after one row per node of the earlier children |
| FileTree.NodeChildren | src/components/docs/directory-structure.tsx:187-197 | a node's children render exactly one level deeper, in order, with the node's ancestry plus its own `isLast`; a node without `children` renders one row |
| FileTree.RowsWithinDepth | src/components/docs/directory-structure.tsx:187-197 | no row of a subtree is shallower than its level or deeper than its level plus the subtree's depth |
| FileTree.ChildRowsWithinDepth | src/components/docs/directory-structure.tsx:189-197 | the same bound for the rows of a children array |
| FileTree.FlatDir | src/components/docs/directory-structure.tsx:187-197 | a directory whose children have no `children` field reaches one level down and counts itself and its children |
| FileTree.LastChildBlock | src/components/docs/directory-structure.tsx:189-195 | the rows of a children array end with the block of its last child, rendered with `isLast` true |
| FileTree.AncestryRecordsAncestors | src/components/docs/directory-structure.tsx:195 | `[...parentIsLast, isLast]`: a row's ancestry flag at level m is the `isLast` of its enclosing ancestor at level m |
| FileTree.DescribedTreeRowsHaveSuffix | src/components/docs/directory-structure.tsx:180-184 | when every node is described, every row carries the separator and its own node's description |
| FileTree.LeafRowsArePlainFiles | src/components/docs/directory-structure.tsx:173-177 | when every node without children is a file, every row without a container has the file icon and no bold |
| FileTree.DeepRowsCarryColumnFour | src/components/docs/directory-structure.tsx:138-206 | with the root's default `isLast = false`, every row at level 2 or deeper draws the line at x = 4 |
| FileTree.AncestorColumnFollowsShallowerAncestor | src/components/docs/directory-structure.tsx:152-158 | as written, the line at the column of level m+1 follows whether the ancestor at level m (one level shallower) is a last sibling |
| FileTree.StrayLineUnderLastBranch | src/components/docs/directory-structure.tsx:150-166 | for `A(B, C(D, E))`, D draws lines at x = 4 and x = 28 although C is the last child; the intended rule draws only x = 28 |
| FileTree.IntendedConnectors | src/components/docs/directory-structure.tsx:150-166 | the corrected rule: the line at the column of level m is present iff ancestry flag m is false, plus the own line iff not last |
| FileTree.IntendedColumnFollowsAncestor | src/components/docs/directory-structure.tsx:152-158 | under the corrected rule the line at an ancestor's column is present iff that very ancestor is not a last sibling |
| FileTree.IntendedIgnoresRootFlag | src/components/docs/directory-structure.tsx:141 | under the corrected rule the root's `isLast` never matters |
| DirectoryStructure.KunDepth | src/components/docs/directory-structure.tsx:18-129 | the `kun/` tree reaches two levels below the root |
| DirectoryStructure.KunDescribed | src/components/docs/directory-structure.tsx:18-129 | every node of the `kun/` tree has a non-empty description |
| DirectoryStructure.KunSize | src/components/docs/directory-structure.tsx:18-129 | the `kun/` tree has 20 nodes |
| DirectoryStructure.KunKids | src/components/docs/directory-structure.tsx:18-128 | the root's five directories in order, each one level deep, with 5, 3, 3, 5 and 3 nodes |
| DirectoryStructure.FrontSize | src/components/docs/directory-structure.tsx:18-111 | the four directories before `src/` hold 16 nodes |
| DirectoryStructure.KunRows | src/components/docs/directory-structure.tsx:18-206 | the page draws 20 rows, none deeper than level 2, each with a description suffix |
| DirectoryStructure.KunLastBlock | src/components/docs/directory-structure.tsx:112-128 | the last three rows are the `src/` block rendered as the root's last child |
| DirectoryStructure.SourceFoldersCarryStrayLine | src/components/docs/directory-structure.tsx:112-128 | `src/` is last, yet `app/` draws the line at x = 4 as well as its own at x = 28; the corrected rule draws only x = 28 |
| Structure.PhaseDepth | src/components/docs/structure.tsx:18-58 | the phase tree reaches two levels below the root |
| Structure.PhaseSize | src/components/docs/structure.tsx:18-58 | the phase tree has 17 nodes: root, three phases, 13 files |
| Structure.PhaseNodes | src/components/docs/structure.tsx:18-58 | every node is described, and every node without children is a file |
| Structure.PhaseRows | src/components/docs/structure.tsx:60-124 | 17 rows, none deeper than level 2, each with a suffix; rows without a container have the file icon and no bold |
| Structure.PhaseThreeIsLast | src/components/docs/structure.tsx:79-96 | the three phases are the root's children in order; phases 1 and 2 draw their line at x = 4, and "Phase 3: Commercial" is last and draws none |
| PrismaStructure.PrismaRows | src/components/docs/prisma-structure.tsx:17-43 | the page's seven rows, each node in depth-first order with the level, `isLast` and ancestry it is rendered with |
| PrismaStructure.PrismaKidRows | src/components/docs/prisma-structure.tsx:21-42 | below the root come the four children's blocks in order, `models/` with its two files one level deeper |
| PrismaStructure.ModelsBlock | src/components/docs/prisma-structure.tsx:27-35 | `models/` draws its row, then `auth.prisma` and the last child `config.prisma` at level 2 |
| PrismaStructure.PrismaShape | src/components/docs/prisma-structure.tsx:17-43 | seven rows, none deeper than level 2, and level 2 is reached |
| PrismaStructure.MigrationsRow | src/components/docs/prisma-structure.tsx:36-40 | `migrations/` has the folder icon and bold name but no children container |
| PrismaStructure.SeedIsLast | src/components/docs/prisma-structure.tsx:41 | `seed.ts` is the last child and draws no line, none at x = 4 in particular |
| PrismaStructure.ModelFilesLines | src/components/docs/prisma-structure.tsx:64-81 | `auth.prisma` draws lines at x = 4 and x = 28, and `config.prisma` only at x = 4 |
| FlowChart.NodeById | src/components/docs/flow-chart.tsx:22 | the table has a key exactly for each declared id, and the entry under an id carries that id |
| FlowChart.LaterNodeWins | src/components/docs/flow-chart.tsx:22 | of several nodes with one id, the table keeps the last |
| FlowChart.EndpointOf | src/components/docs/flow-chart.tsx:28-40 | the label is the node's, or the raw id when the node is missing; the icon is hidden iff icons are off, else the node's own or the side's default when the node is missing or iconless |
| Strings.WhenTruthy | src/components/docs/flow-chart.tsx:37 | `e.note && ...` (and `s.detail && ...` at arrangements/stepper-flow.tsx:33-35): the text is shown exactly when it is present and non-empty, and then as given |
| FlowChart.RenderDefault | src/components/docs/flow-chart.tsx:9-21 | the defaults: title "Flow", the compact size, and both icons shown on every row |
| FlowChart.EdgesInOrder | src/components/docs/flow-chart.tsx:27-44 | exactly one row per edge, row i drawn from edge i |
| FlowChart.EdgeRowsConcat | src/components/docs/flow-chart.tsx:27-44 | the rows of two edge lists in sequence are the rows of their concatenation |
| FlowChart.DanglingEndpoint | src/components/docs/flow-chart.tsx:28-40 | an undeclared endpoint shows its raw id, with `LayoutPanelLeft` on the from side and `Layers` on the to side |
| FlowChart.IconlessNode | src/components/docs/flow-chart.tsx:28-29 | a declared node without an icon gets the side's default icon and keeps its label |
| FlowChart.HidingIconsKeepsLabels | src/components/docs/flow-chart.tsx:33-40 | `showIcons=false` removes both icons of every row and changes nothing else |
| FlowChart.UnreferencedNodeIrrelevant | src/components/docs/flow-chart.tsx:22-40 | inserting a node that no edge names anywhere in the node list leaves the chart unchanged |
| FlowChart.SameLookup | src/components/docs/flow-chart.tsx:22 | inserting a node with another id leaves the lookup of an id unchanged |
| FlowChart.ResolvedLabels | src/components/docs/flow-chart.tsx:34-40 | when every endpoint is declared, every box shows a declared node's label |
| FlowChart.GhostEdge | src/components/docs/flow-chart.tsx:27-40 | an edge to an undeclared id still renders, with the raw id and the `Layers` icon |
| FlowChart.PresetsResolve | src/components/docs/flow-chart.tsx:50-122 | in all four preset diagrams every edge endpoint names a declared node |
| FlowChart.EndToEndRows | src/components/docs/flow-chart.tsx:105-122 | the end-to-end flow is compact, has five rows, and shows no icons and no notes |
| FlowChart.QuietRows | src/components/docs/flow-chart.tsx:22-44 | a chart drawn with `large` and `showIcons` false is compact, has one row per edge, and with no edge notes shows no icon and no note |
| FlowChart.EndToEndEnds | src/components/docs/flow-chart.tsx:105-122 | the end-to-end flow starts at "Developer" and ends at "Generated Code" |
| FlowChart.EndToEndLookups | src/components/docs/flow-chart.tsx:106-113 | the table maps "dev" to "Developer" and "code" to "Generated Code" |
| BlockDiagram.Chunks | src/components/docs/arrangements/block-diagram.tsx:5-9 | there are no groups exactly when the input is empty |
| BlockDiagram.Chunk | src/components/docs/arrangements/block-diagram.tsx:5-9 | the loop that pushes `arr.slice(i, i + size)` while advancing by `size` returns exactly `Chunks(arr, size)` |
| BlockDiagram.FlattenChunks | src/components/docs/arrangements/block-diagram.tsx:5-9 | concatenating the groups gives the input back |
| BlockDiagram.ChunkSizes | src/components/docs/arrangements/block-diagram.tsx:7 | every group but the last has `size` elements, and the last has 1 to `size` |
| BlockDiagram.ChunkCount | src/components/docs/arrangements/block-diagram.tsx:7 | the number of groups is the ceiling of length / size |
| BlockDiagram.ChunkBracket | src/components/docs/arrangements/block-diagram.tsx:5-9 | the number of groups g satisfies (g - 1) * size < length <= g * size |
| BlockDiagram.ChunksUnique | src/components/docs/arrangements/block-diagram.tsx:5-9 | any grouping that rejoins to the input, with full groups and a non-empty last group of at most `size`, is the chunking |
| BlockDiagram.ChunkExamples | src/components/docs/arrangements/block-diagram.tsx:5-9 | five items in rows of three give a row of three and a row of two; no items give no rows |
| BlockDiagram.TitleNotDrawn | src/components/docs/arrangements/block-diagram.tsx:16-37 | the `title` prop never changes the drawing |
| BlockDiagram.BlockRows | src/components/docs/arrangements/block-diagram.tsx:20-31 | a section's badge rows hold its items in order, in ceil(n/3) rows of three, the last of one to three |
| BlockDiagram.KunBlocksOneRowEach | src/components/docs/arrangements/block-diagram.tsx:40-76 | the eight Kun sections each draw a single row holding their three items |
| StepperFlow.RenderDefault | src/components/docs/arrangements/stepper-flow.tsx:8-18 | the defaults: title "Setup Flow" and the compact profile |
| StepperFlow.StepsNumbered | src/components/docs/arrangements/stepper-flow.tsx:23-37 | rows numbered 1, 2, 3, ... in step order; a connector exactly under every step but the last, so len-1 connectors; title from the step at the same position, and its detail exactly when that step's detail is present and non-empty |
| StepperFlow.AppendStep | src/components/docs/arrangements/stepper-flow.tsx:27-29 | appending a step turns on the old last row's connector and changes nothing else |
| StepperFlow.Presets | src/components/docs/arrangements/stepper-flow.tsx:45-67 | the presets have 5 and 6 compact, numbered steps with 4 and 5 connectors, each showing its detail |
| DocsNav.Without | src/components/docs/docs-nav.tsx:15 | `filter(seg => seg !== w)` keeps exactly the pieces other than `w`, each with its multiplicity, so the length drops by the number of `w` |
| DocsNav.WithoutSingleton | src/components/docs/docs-nav.tsx:15 | a one-piece list keeps its piece exactly when it is not `w` |
| DocsNav.WithoutConcat | src/components/docs/docs-nav.tsx:15 | filtering distributes over concatenation, so the kept pieces stay in their order |
| DocsNav.Prefix | src/components/docs/docs-nav.tsx:10 | the prefix is "/" + lang for a non-empty `lang`, else empty |
| DocsNav.Segments | src/components/docs/docs-nav.tsx:13-15 | segments are non-empty and slash-free, and with `lang` set none equals it |
| DocsNav.SegmentsOfPath | src/components/docs/docs-nav.tsx:13-15 | a path built from clean segments gives those segments back |
| DocsNav.WithoutAbsent | src/components/docs/docs-nav.tsx:15 | filtering out a piece that does not occur changes nothing |
| DocsNav.LangSegmentsDropped | src/components/docs/docs-nav.tsx:13-15 | with `lang` set, every segment equal to it is dropped wherever it occurs; the other segments keep their multiplicity, and for every cut of the unfiltered segments the kept ones before the cut come before those after it |
| DocsNav.FormatNameTitles | src/components/docs/docs-nav.tsx:21-24 | the name is the segment with dashes turned to spaces and the first letter of each word upper-cased, the rest unchanged |
| DocsNav.TitledJoin | src/components/docs/docs-nav.tsx:21-24 | a dash-free word, a dash and a rest format as the capitalized word, a space and the formatted rest |
| DocsNav.HrefsLengthen | src/components/docs/docs-nav.tsx:17 | each breadcrumb href is a proper prefix of every later one, so the hrefs are strictly longer and distinct |
| DocsNav.OnlyLastIsLast | src/components/docs/docs-nav.tsx:18 | exactly the final breadcrumb is last, and exactly the final link is styled current |
| DocsNav.TrailShape | src/components/docs/docs-nav.tsx:33-43 | no trail iff fewer than two segments; otherwise a "Docs" link to prefix + "/docs" followed by every breadcrumb but the first |
| DocsNav.TwoSegmentTrail | src/components/docs/docs-nav.tsx:33-43 | with two segments the trail is the "Docs" link and one current link to the full path |
| DocsNav.ArabicSegments | src/components/docs/docs-nav.tsx:13-15 | `/ar/docs/phase1` under `lang` "ar" has the segments `docs` and `phase1` |
| DocsNav.ArabicHrefs | src/components/docs/docs-nav.tsx:17 | the "ar" prefix gives the hrefs `/ar/docs` and `/ar/docs/phase1` |
| DocsNav.ArabicDocsExample | src/components/docs/docs-nav.tsx:10-43 | that page gets the "Docs" link to `/ar/docs` and a current link to `/ar/docs/phase1` |
| LangSwitcher.CurrentLocale | src/components/template/lang-switcher.tsx:22-24 | Arabic exactly when the path starts with `/ar/` or is `/ar`; English otherwise, in particular for `/en/...` and `/en` |
| LangSwitcher.NotBoth | src/components/template/lang-switcher.tsx:22-24 | no path shows both locales, so the order `locales.find` tries them in never matters |
| LangSwitcher.Target | src/components/template/lang-switcher.tsx:27 | the target is always the other locale |
| LangSwitcher.LocalePath | src/components/template/lang-switcher.tsx:31-36 | the link always starts with "/" + target; a path starting with "/" + current has only that prefix swapped; any other path gets "/" + target in front |
| LangSwitcher.SwitchDetected | src/components/template/lang-switcher.tsx:22-36 | a path that shows its locale links to the same rest of the path under the other locale, and switching twice gives the path back |
| LangSwitcher.SwitchUndetected | src/components/template/lang-switcher.tsx:31-36 | a path without a locale counts as English and gets `/ar` in front, unless it starts with the raw characters `/en` |
| LangSwitcher.EnglishWordRewritten | src/components/template/lang-switcher.tsx:31-36 | `/english` links to `/arglish`, which shows no locale either |
| LangSwitcher.SwitchedPath | src/components/template/lang-switcher.tsx:31-36 | corrected link: a detected locale prefix is swapped; otherwise "/" + target is put in front |
| LangSwitcher.SwitchedPathShowsTarget | src/components/template/lang-switcher.tsx:22-36 | under the corrected link every pathname leads to a path that shows the other locale |
| LangSwitcher.SwitchedPathAgrees | src/components/template/lang-switcher.tsx:31-36 | the two links agree except on paths that show no locale yet start with `/en` |
| MdxComponents.SpacesToDashes | src/mdx-components.tsx:39 | every space becomes "-", every other character is kept in place |
| MdxComponents.Remove | src/mdx-components.tsx:40-41 | the character is gone, every other character is kept, and the length drops by its count |
| MdxComponents.RemoveConcat | src/mdx-components.tsx:40-41 | deleting distributes over concatenation, so the kept characters stay in their order |
| MdxComponents.HeadingId | src/mdx-components.tsx:37-42 | no id exactly when there are no children; otherwise the slug of their text |
| MdxComponents.RenderedHeadingId | src/mdx-components.tsx:37-50 | the rendered heading's `id` is the props' `id` when one is passed (the spread comes after `id={id}`); otherwise none without children and the slug of their text with them |
| MdxComponents.SlugIsSlugChars | src/mdx-components.tsx:37-42 | the three passes equal one pass that drops `'` and `?`, turns spaces to dashes and lower-cases |
| MdxComponents.SlugShape | src/mdx-components.tsx:39-42 | a slug has no space, apostrophe or question mark, and its length is the text's minus its apostrophes and question marks |
| MdxComponents.SlugIdempotent | src/mdx-components.tsx:39-42 | the slug of a slug is itself |
| MdxComponents.CodeDispatch | src/mdx-components.tsx:192-224 | string children always give inline code; the command block iff all four package-manager commands are non-empty; otherwise the default block, with a copy button iff the raw text is non-empty |
| MdxComponents.InlineIgnoresAnnotations | src/mdx-components.tsx:193-203 | for string children the annotations never matter |
| MdxComponents.Merge | src/mdx-components.tsx:308-313 | the keys are both tables' keys; caller entries override built-ins, and the other built-ins are kept |
| MdxComponents.MergeLaws | src/mdx-components.tsx:308-313 | merging no components keeps the built-ins; merging the same components twice is merging them once |
| ComponentSource.Render | src/components/docs/component-source.tsx:24-26 | nothing is drawn exactly when the code is absent or empty |
| ComponentSource.LangPrecedence | src/components/docs/component-source.tsx:28 | a present `language` is used verbatim, even empty; otherwise the title's last dot-piece; "tsx" with neither |
| ComponentSource.TitleSuffix | src/components/docs/component-source.tsx:28 | the language from a title is dot-free, ends the title, and is the whole title or follows its last dot |
| ComponentSource.DotlessTitle | src/components/docs/component-source.tsx:28 | a title without a dot is its own language |
| ComponentSource.FigureShape | src/components/docs/component-source.tsx:15-77 | for non-empty code: plain container iff `collapsible` is false (default true); a caption iff the title is non-empty; the code is shown as given |
| DocsSidebar.MenuShape | src/components/docs/docs-sidebar.tsx:51-62 | eight entries in `DOCS_LINKS` order; each targets prefix + href, and is active iff the pathname is that target or the bare href |
| DocsSidebar.HrefShapes | src/components/docs/docs-sidebar.tsx:18-27 | every href is `/docs` or `/docs/` followed by a slash-free word not starting with `d` |
| DocsSidebar.HrefsDistinct | src/components/docs/docs-sidebar.tsx:18-27 | the eight hrefs are distinct |
| DocsSidebar.NotShifted | src/components/docs/docs-sidebar.tsx:18-27 | no href is a non-empty prefix followed by another href |
| DocsSidebar.AtMostOneActive | src/components/docs/docs-sidebar.tsx:51-53 | for any pathname and language, no two entries are active |

## Left out

- Markup and styling: JSX elements, Tailwind class strings and lucide icon components are not modelled. Icons are the enumerations `FileTree.Icon` and `FlowChart.Glyph`. The `large`/`compact` props are two-valued profiles; the pixel and text sizes they select are not modelled.
- `highlightCode` (component-source.tsx:29) is an asynchronous library call. The model keeps the language it is given but not the highlighted HTML.
- `CopyButton` and its clipboard access are not modelled; only whether a button is shown, and with which value, is.
- `usePathname()` is a parameter. The router, the layouts and `next.config.ts` are not part of this model.
- Case mapping: `toUpperCase` and `toLowerCase` map ASCII letters only (`Strings.UpperChar`, `Strings.LowerChar`). JavaScript maps all of Unicode.
- `Object.fromEntries` lookups of inherited keys such as "constructor" are not modelled. The lookup is a plain `map<string, FlowNode>`.
- The glyph printed before a description differs between the three `FileTree` copies, so it is the parameter `sep`.
- MdxComponents.HeadingId: `children.toString()` of non-string children is not modelled. The text it yields is the parameter.
- MdxComponents.Merge: the contents of the built-in component table (styling wrappers for headings, tables, lists and the registered diagram components) are not modelled; the table is a parameter.
- Strings.ReplaceFirst: the `$` substitution patterns of JavaScript `replace` are not modelled. The only replacements used, `/en` and `/ar`, contain none.
- `DocsSidebar`'s `tree` prop and the links' `key` field are unused; the React key of each item is its `href` (docs-sidebar.tsx:51, :56). `ComponentSource`'s `fileName` is unused, and its remaining props go onto the plain container only when `collapsible` is false (component-source.tsx:33, :45). None of these is modelled.
- The `/` separators and link classes drawn between breadcrumbs are markup and are not modelled.
- `BlockDiagram` (block-diagram.tsx:80-82) only renders `KunBuildingBlocks`. `BlockDiagram.KunBlocksOneRowEach` covers it.
- BlockDiagram.Chunk: `chunk` with a non-positive or fractional `size` is not modelled (a size of 0 or less never terminates on non-empty input; a fractional size slices at truncated indices, so groups overlap), so `size` is a positive integer. The only call site passes 3.
- The `title` prop of `BuildingBlocks` is accepted but never drawn. `BlockDiagram.TitleNotDrawn` states this.

## Findings

| source | as written | input that shows it | evidently intended | confidence | as-written member | corrected member |
|---|---|---|---|---|---|---|
| src/components/docs/directory-structure.tsx:152-158 | the line at the column of level m reads `parentIsLast[m-1]`, the flag of the ancestor one level shallower (the same code is in structure.tsx:81-87 and prisma-structure.tsx:66-72) | the tree `A(B, C(D, E))`: C is the last child, yet D draws a line at x = 4; on the `kun/` page the same happens under `src/` | the line at the column of level m follows the level-m ancestor, `parentIsLast[m]`, so nothing is drawn under a last branch | medium, not executed | FileTree.StrayLineUnderLastBranch | FileTree.IntendedColumnFollowsAncestor |
| src/components/template/lang-switcher.tsx:32-33 | the rewrite tests the raw prefix `/${currentLocale}`, which is looser than the locale detection | `/english` has no locale (English by default), yet the link is `/arglish`, which shows no locale either | rewrite only a detected locale prefix and otherwise prepend, so the link always shows the other locale | medium, not executed | LangSwitcher.EnglishWordRewritten | LangSwitcher.SwitchedPathShowsTarget |

The page-level lemmas describe what the pages draw today, so
`FileTree.Connectors` and `LangSwitcher.LocalePath` stay as written.
The corrected definitions, `FileTree.IntendedConnectors` and
`LangSwitcher.SwitchedPath`, are stated beside them with their intended
properties proved: `FileTree.IntendedIgnoresRootFlag` and
`LangSwitcher.SwitchedPathAgrees`.
