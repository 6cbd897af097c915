/**
 * The JavaScript string operations the components use, on `seq<char>`:
 * `split` and `join` with a one-character separator, `startsWith`,
 * `replace` of the first occurrence of a literal pattern, and ASCII case mapping.
 */
module Strings {
  import opened Wrappers

  /** JavaScript truthiness of an optional string: present and non-empty. */
  predicate Truthy(o: Option<string>) {
    o.Some? && o.value != ""
  }

  /** `o && <element>`: the text is shown only when it is present and non-empty, and then as given. */
  function WhenTruthy(o: Option<string>): (shown: Option<string>)
    ensures shown.Some? <==> o.Some? && o.value != ""
    ensures shown.Some? ==> shown == o
  {
    if Truthy(o) then o else None
  }

  /** `s.startsWith(p)`. */
  predicate StartsWith(s: string, p: string) {
    |p| <= |s| && s[..|p|] == p
  }

  /** `s.split(c)`: the pieces between separators; n separators give n + 1 pieces. */
  function Split(s: string, c: char): (parts: seq<string>)
    ensures |parts| >= 1
    ensures forall i :: 0 <= i < |parts| ==> c !in parts[i]
  {
    if s == [] then [""]
    else if s[0] == c then [""] + Split(s[1..], c)
    else
      var rest := Split(s[1..], c);
      [[s[0]] + rest[0]] + rest[1..]
  }

  /** `parts.join(c)`: the pieces with one separator between neighbours; `[]` joins to "". */
  function Join(parts: seq<string>, c: char): string {
    if |parts| == 0 then ""
    else if |parts| == 1 then parts[0]
    else parts[0] + [c] + Join(parts[1..], c)
  }

  /** Joining the pieces of a split restores the string. */
  lemma {:induction false} JoinSplit(s: string, c: char)
    ensures Join(Split(s, c), c) == s
  {
    if s == [] {
    } else if s[0] == c {
      JoinSplit(s[1..], c);
      assert s == [c] + s[1..];
    } else {
      JoinSplit(s[1..], c);
      var rest := Split(s[1..], c);
      if |rest| == 1 {
        assert s == [s[0]] + rest[0];
      } else {
        assert Join(rest, c) == rest[0] + [c] + Join(rest[1..], c);
        assert s == [s[0]] + s[1..];
      }
    }
  }

  /** Splitting a join of separator-free pieces gives the pieces back. */
  lemma {:induction false} SplitJoin(parts: seq<string>, c: char)
    requires |parts| >= 1
    requires forall i :: 0 <= i < |parts| ==> c !in parts[i]
    ensures Split(Join(parts, c), c) == parts
  {
    if |parts| == 1 {
      SplitPiece(parts[0], c, []);
      assert parts[0] + [] == parts[0] && Split([], c) == [""];
      assert parts[0] + "" == parts[0];
    } else {
      var rest := parts[1..];
      var j := Join(rest, c);
      SplitJoin(rest, c);
      assert ([c] + j)[0] == c && ([c] + j)[1..] == j;
      assert Split([c] + j, c) == [""] + rest;
      SplitPiece(parts[0], c, [c] + j);
      assert parts[0] + "" == parts[0];
      assert Join(parts, c) == parts[0] + ([c] + j);
      assert parts == [parts[0]] + rest;
    }
  }

  /** A separator-free prefix is glued to the first piece of the rest. */
  lemma {:induction false} SplitPiece(w: string, c: char, t: string)
    requires c !in w
    ensures Split(w + t, c) == [w + Split(t, c)[0]] + Split(t, c)[1..]
  {
    if w != [] {
      SplitPiece(w[1..], c, t);
      assert (w + t)[1..] == w[1..] + t;
      assert (w + t)[0] == w[0];
      assert [w[0]] + (w[1..] + Split(t, c)[0]) == w + Split(t, c)[0];
    } else {
      assert w + t == t;
      assert w + Split(t, c)[0] == Split(t, c)[0];
      assert Split(t, c) == [Split(t, c)[0]] + Split(t, c)[1..];
    }
  }

  /** Joining two non-empty lists of pieces puts one separator between the two joins. */
  lemma {:induction false} JoinAppend(a: seq<string>, b: seq<string>, c: char)
    requires |a| >= 1 && |b| >= 1
    ensures Join(a + b, c) == Join(a, c) + [c] + Join(b, c)
    decreases |a|
  {
    if |a| == 1 {
      assert (a + b)[1..] == b;
    } else {
      JoinAppend(a[1..], b, c);
      assert (a + b)[1..] == a[1..] + b;
    }
  }

  /** The position of the first `c` in `s`, or `|s|` when there is none. */
  function Find(s: string, c: char): (k: nat)
    ensures k <= |s|
    ensures k < |s| ==> s[k] == c
    ensures forall j :: 0 <= j < k ==> s[j] != c
  {
    if s == [] then 0 else if s[0] == c then 0 else 1 + Find(s[1..], c)
  }

  /** A string without the separator splits into itself alone. */
  lemma SplitNone(s: string, c: char)
    requires c !in s
    ensures Split(s, c) == [s]
  {
    SplitPiece(s, c, []);
    assert s + [] == s;
    assert s + "" == s;
  }

  /** Splitting at the first separator: the piece before it, then the pieces of what follows it. */
  lemma SplitAtFirst(s: string, c: char, k: nat)
    requires k < |s| && s[k] == c && c !in s[..k]
    ensures Split(s, c) == [s[..k]] + Split(s[k + 1..], c)
  {
    SplitPiece(s[..k], c, s[k..]);
    assert s[..k] + s[k..] == s;
    assert s[k..][0] == c && s[k..][1..] == s[k + 1..];
    assert s[..k] + "" == s[..k];
  }

  /** `s.replace(p, r)` with a string pattern: only the first occurrence of `p` is replaced. */
  function ReplaceFirst(s: string, p: string, r: string): (res: string)
    ensures StartsWith(s, p) ==> res == r + s[|p|..]
    ensures (forall j :: !OccursAt(s, p, j)) ==> res == s
  {
    match IndexOf(s, p)
    case NotFound => s
    case At(i) => s[..i] + r + s[i + |p|..]
  }

  /** `p` occurs in `s` starting at position `i`. */
  predicate OccursAt(s: string, p: string, i: int) {
    0 <= i <= |s| - |p| && s[i..i + |p|] == p
  }

  /** The first position at which `p` occurs in `s`, if any (`indexOf`). */
  function IndexOf(s: string, p: string): (r: MaybeIndex)
    ensures r.At? ==> OccursAt(s, p, r.i)
    ensures r.At? ==> forall j :: 0 <= j < r.i ==> !OccursAt(s, p, j)
    ensures r.NotFound? ==> forall j :: !OccursAt(s, p, j)
    ensures StartsWith(s, p) ==> r == At(0)
  {
    if StartsWith(s, p) then At(0)
    else if |s| <= |p| then
      assert forall j :: OccursAt(s, p, j) ==> j == 0 && s[..|p|] == p;
      NotFound
    else
      var tail := IndexOf(s[1..], p);
      assert forall j :: 1 <= j ==> (OccursAt(s, p, j) <==> OccursAt(s[1..], p, j - 1)) by {
        forall j | 1 <= j ensures OccursAt(s, p, j) <==> OccursAt(s[1..], p, j - 1) {
          OccursShift(s, p, j);
        }
      }
      assert !OccursAt(s, p, 0);
      match tail
      case NotFound => NotFound
      case At(k) => At(k + 1)
  }

  /** An occurrence past the first character is an occurrence in the tail, one position earlier. */
  lemma OccursShift(s: string, p: string, j: int)
    requires |s| > 0 && 1 <= j
    ensures OccursAt(s, p, j) <==> OccursAt(s[1..], p, j - 1)
  {
    if j <= |s| - |p| {
      var a, b := s[j..j + |p|], s[1..][j - 1..j - 1 + |p|];
      assert |a| == |b|;
      forall k | 0 <= k < |a| ensures a[k] == b[k] {
        assert a[k] == s[j + k];
      }
    }
  }

  datatype MaybeIndex = NotFound | At(i: nat)

  /** `c.toUpperCase()` for ASCII letters; every other character is kept. */
  function UpperChar(c: char): (u: char)
    ensures 'a' <= c <= 'z' ==> 'A' <= u <= 'Z' && u as int == c as int - 32
    ensures !('a' <= c <= 'z') ==> u == c
  {
    if 'a' <= c <= 'z' then (c as int - 32) as char else c
  }

  /** `c.toLowerCase()` for ASCII letters; every other character is kept. */
  function LowerChar(c: char): (l: char)
    ensures 'A' <= c <= 'Z' ==> 'a' <= l <= 'z' && l as int == c as int + 32
    ensures !('A' <= c <= 'Z') ==> l == c
  {
    if 'A' <= c <= 'Z' then (c as int + 32) as char else c
  }

  /** `s.toLowerCase()` over ASCII. */
  function Lower(s: string): (r: string)
    ensures |r| == |s|
    ensures forall i :: 0 <= i < |s| ==> r[i] == LowerChar(s[i])
  {
    seq(|s|, i requires 0 <= i < |s| => LowerChar(s[i]))
  }
}
