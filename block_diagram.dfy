/**
 * arrangements/block-diagram.tsx: `chunk` cuts a list into consecutive
 * groups of `size`, and `BuildingBlocks` lays out each section's items as
 * rows of at most three badges.
 */
module BlockDiagram {

  function Min(a: int, b: int): int {
    if a < b then a else b
  }

  /**
   * The groups `chunk` produces: `arr.slice(i, i + size)` for i = 0, size,
   * 2 * size, ... while i < |arr|, the slice end clamped to the length.
   */
  function Chunks<T>(arr: seq<T>, size: nat): (groups: seq<seq<T>>)
    requires size > 0
    ensures groups == [] <==> arr == []
    decreases |arr|
  {
    if arr == [] then []
    else
      var end := Min(size, |arr|);
      [arr[..end]] + Chunks(arr[end..], size)
  }

  /** The elements of the groups, in order. */
  function Flatten<T>(groups: seq<seq<T>>): seq<T> {
    if groups == [] then [] else groups[0] + Flatten(groups[1..])
  }

  /**
   * `chunk(arr, size)`: the loop pushes slices onto `out` while advancing
   * `i` by `size`. `size` must be positive: with 0 the loop never ends.
   */
  method Chunk<T>(arr: seq<T>, size: nat) returns (out: seq<seq<T>>)
    requires size > 0
    ensures out == Chunks(arr, size)
  {
    out := [];
    var i := 0;
    while i < |arr|
      invariant 0 <= i
      invariant i < |arr| ==> out + Chunks(arr[i..], size) == Chunks(arr, size)
      invariant i >= |arr| ==> out == Chunks(arr, size)
      decreases |arr| - i
    {
      var end := Min(i + size, |arr|);
      ChunksFrom(arr, i, size);
      out := out + [arr[i..end]];
      i := i + size;
      if i < |arr| {
        assert arr[end..] == arr[i..];
      } else {
        assert arr[end..] == [];
      }
    }
  }

  /** Unrolling the groups of a suffix once: its first group, then the groups after it. */
  lemma ChunksFrom<T>(arr: seq<T>, i: nat, size: nat)
    requires size > 0 && i < |arr|
    ensures Chunks(arr[i..], size) == [arr[i..Min(i + size, |arr|)]] + Chunks(arr[Min(i + size, |arr|)..], size)
  {
    var end := Min(size, |arr[i..]|);
    assert arr[i..][..end] == arr[i..Min(i + size, |arr|)];
    assert arr[i..][end..] == arr[Min(i + size, |arr|)..];
  }

  /** Joining the groups back together gives the input unchanged. */
  lemma {:induction false} FlattenChunks<T>(arr: seq<T>, size: nat)
    requires size > 0
    ensures Flatten(Chunks(arr, size)) == arr
    decreases |arr|
  {
    if arr != [] {
      var end := Min(size, |arr|);
      FlattenChunks(arr[end..], size);
      var groups := Chunks(arr, size);
      assert groups == [arr[..end]] + Chunks(arr[end..], size);
      assert groups[0] == arr[..end] && groups[1..] == Chunks(arr[end..], size);
      assert Flatten(groups) == arr[..end] + Flatten(Chunks(arr[end..], size));
      assert arr[..end] + arr[end..] == arr;
    }
  }

  /** Every group but the last holds exactly `size` elements; the last holds between 1 and `size`. */
  lemma {:induction false} ChunkSizes<T>(arr: seq<T>, size: nat)
    requires size > 0
    ensures var groups := Chunks(arr, size);
      && (forall g :: 0 <= g < |groups| - 1 ==> |groups[g]| == size)
      && (|groups| > 0 ==> 1 <= |groups[|groups| - 1]| <= size)
    decreases |arr|
  {
    if arr != [] {
      var end := Min(size, |arr|);
      var groups := Chunks(arr, size);
      var rest := Chunks(arr[end..], size);
      ChunkSizes(arr[end..], size);
      assert groups == [arr[..end]] + rest;
      if rest != [] {
        assert |arr| > size;
        forall g | 0 <= g < |groups| - 1 ensures |groups[g]| == size {
          if g > 0 { assert groups[g] == rest[g - 1]; }
        }
        assert groups[|groups| - 1] == rest[|rest| - 1];
      }
    }
  }

  /**
   * There are ceil(|arr| / size) groups: the one count `g` with
   * (g - 1) * size < |arr| <= g * size.
   */
  lemma ChunkCount<T>(arr: seq<T>, size: nat)
    requires size > 0
    ensures var g := |Chunks(arr, size)|; (g - 1) * size < |arr| <= g * size
    ensures |Chunks(arr, size)| == (|arr| + size - 1) / size
  {
    ChunkBracket(arr, size);
    CeilDiv(|arr|, size, |Chunks(arr, size)|);
  }

  lemma {:induction false} ChunkBracket<T>(arr: seq<T>, size: nat)
    requires size > 0
    ensures var g := |Chunks(arr, size)|; (g - 1) * size < |arr| <= g * size
    decreases |arr|
  {
    if arr != [] {
      var end := Min(size, |arr|);
      ChunkBracket(arr[end..], size);
      var g := |Chunks(arr[end..], size)|;
      assert |Chunks(arr, size)| == g + 1;
      if |arr| <= size {
        assert arr[end..] == [];
        assert g == 0;
      } else {
        assert |arr[end..]| == |arr| - size;
        BracketStep(g, size, |arr|);
      }
    }
  }

  /** One more full group moves the bracket up by `size`. */
  lemma BracketStep(g: int, size: int, n: int)
    requires size > 0 && (g - 1) * size < n - size <= g * size
    ensures ((g + 1) - 1) * size < n <= (g + 1) * size
  {
    assert (g + 1) * size == g * size + size;
    assert (g - 1) * size == g * size - size;
  }

  lemma MulMono(a: int, b: int, d: nat)
    requires a <= b
    ensures a * d <= b * d
  {
    assert b * d - a * d == (b - a) * d;
  }

  /** The count bracketed by multiples of `d` is the rounded-up quotient. */
  lemma CeilDiv(n: int, d: int, g: int)
    requires d > 0 && (g - 1) * d < n <= g * d
    ensures (n + d - 1) / d == g
  {
    var x := n + d - 1;
    var r, m := x / d, x % d;
    assert x == r * d + m && 0 <= m < d;
    assert (g - 1) * d + d == g * d;
    assert g * d <= x < g * d + d;
    assert (r + 1) * d == r * d + d;
    assert (g + 1) * d == g * d + d;
    MulCancel(r, g + 1, d);
    MulCancel(g, r + 1, d);
  }

  /** A positive factor can be cancelled from a strict inequality. */
  lemma MulCancel(a: int, b: int, d: nat)
    requires d > 0
    ensures a * d < b * d ==> a < b
  {
    if b <= a {
      MulMono(b, a, d);
    }
  }

  /**
   * Chunking is the only way to cut `arr` into groups that rejoin to `arr`,
   * all of `size` elements except a non-empty last group of at most `size`.
   */
  lemma {:induction false} ChunksUnique<T>(arr: seq<T>, size: nat, groups: seq<seq<T>>)
    requires size > 0
    requires Flatten(groups) == arr
    requires forall g :: 0 <= g < |groups| - 1 ==> |groups[g]| == size
    requires |groups| > 0 ==> 1 <= |groups[|groups| - 1]| <= size
    ensures groups == Chunks(arr, size)
    decreases |groups|
  {
    if groups != [] {
      var rest := groups[1..];
      assert Flatten(groups) == groups[0] + Flatten(rest);
      if rest == [] {
        assert arr == groups[0];
      } else {
        assert |groups[0]| == size;
        assert Flatten(rest) == arr[size..];
        ChunksUnique(arr[size..], size, rest);
        FlattenNonEmpty(rest);
        assert |arr| > size;
      }
    }
  }

  lemma FlattenNonEmpty<T>(groups: seq<seq<T>>)
    requires groups != [] && groups[|groups| - 1] != []
    ensures Flatten(groups) != []
    decreases |groups|
  {
    if |groups| > 1 {
      FlattenNonEmpty(groups[1..]);
    }
  }

  /** Five items make a row of three and a row of two; no items make no rows. */
  lemma ChunkExamples()
    ensures Chunks(["x1", "x2", "x3", "x4", "x5"], 3) == [["x1", "x2", "x3"], ["x4", "x5"]]
    ensures Chunks<string>([], 3) == []
  {
    var arr := ["x1", "x2", "x3", "x4", "x5"];
    assert arr[..3] == ["x1", "x2", "x3"] && arr[3..] == ["x4", "x5"];
    assert arr[3..][..2] == ["x4", "x5"] && arr[3..][2..] == [];
  }

  datatype Section = Section(title: string, items: seq<string>)

  /** A section as drawn: its heading, then its items as rows of badges. */
  datatype Block = Block(heading: string, rows: seq<seq<string>>)

  /** The badges of one section: `chunk(section.items, 3)`. */
  function BlockOf(s: Section): Block {
    Block(s.title, Chunks(s.items, 3))
  }

  /** `BuildingBlocks`: one block per section in order. Its `title` prop is accepted but never drawn. */
  function BuildingBlocks(sections: seq<Section>, title: string): seq<Block>
  {
    seq(|sections|, i requires 0 <= i < |sections| => BlockOf(sections[i]))
  }

  /** Whatever the title, the drawing is the same. */
  lemma TitleNotDrawn(sections: seq<Section>, t1: string, t2: string)
    ensures BuildingBlocks(sections, t1) == BuildingBlocks(sections, t2)
  {
  }

  /** Each block's rows hold the section's items in order, at most three per row, only the last row shorter. */
  lemma BlockRows(s: Section)
    ensures Flatten(BlockOf(s).rows) == s.items
    ensures var rows := BlockOf(s).rows;
      && |rows| == (|s.items| + 2) / 3
      && (forall r :: 0 <= r < |rows| - 1 ==> |rows[r]| == 3)
      && (|rows| > 0 ==> 1 <= |rows[|rows| - 1]| <= 3)
  {
    FlattenChunks(s.items, 3);
    ChunkSizes(s.items, 3);
    ChunkCount(s.items, 3);
  }

  const KunSections: seq<Section> := [
    Section("Network", ["Tailscale", "WireGuard", "SSH"]),
    Section("Sessions", ["tmux", "Persistent", "Attach"]),
    Section("AI", ["Claude Code", "Patterns", "Codebase"]),
    Section("Mobile", ["Termius", "iOS", "Android"]),
    Section("Users", ["Multi-user", "ACLs", "Groups"]),
    Section("Config", ["CLAUDE.md", "Secrets", "Env"]),
    Section("Monitoring", ["Netdata", "Health", "Logs"]),
    Section("Commercial", ["Docker", "Stripe", "Metering"])]

  /** `KunBuildingBlocks`: eight sections of three items each, so every block is a single row holding its items. */
  lemma KunBlocksOneRowEach()
    ensures var blocks := BuildingBlocks(KunSections, "Kun Building Blocks");
      && |blocks| == 8
      && forall i :: 0 <= i < 8 ==> blocks[i].heading == KunSections[i].title && blocks[i].rows == [KunSections[i].items]
  {
    forall i | 0 <= i < 8 ensures Chunks(KunSections[i].items, 3) == [KunSections[i].items] {
      var items := KunSections[i].items;
      assert |items| == 3;
      assert items[..3] == items && items[3..] == [];
    }
  }
}
