/** Finding characters in strings. */
module Text {

  /** The first position from `i` on that holds `c`; the length when none does. */
  function IndexFrom(s: string, c: char, i: nat): (k: nat)
    requires i <= |s|
    ensures i <= k <= |s| && (k < |s| ==> s[k] == c)
    ensures forall j :: i <= j < k ==> s[j] != c
    decreases |s| - i
  {
    if i == |s| || s[i] == c then i else IndexFrom(s, c, i + 1)
  }

  function IndexOf(s: string, c: char): (k: nat)
    ensures k <= |s| && (k < |s| ==> s[k] == c)
    ensures forall j :: 0 <= j < k ==> s[j] != c
  {
    IndexFrom(s, c, 0)
  }

  /** The last position that holds `c`; -1 when none does. */
  function LastIndexTo(s: string, c: char, n: nat): (k: int)
    requires n <= |s|
    ensures -1 <= k < n && (k >= 0 ==> s[k] == c)
    ensures forall j :: k < j < n ==> s[j] != c
  {
    if n == 0 then -1 else if s[n - 1] == c then n - 1 else LastIndexTo(s, c, n - 1)
  }

  function LastIndexOf(s: string, c: char): (k: int)
    ensures -1 <= k < |s| && (k >= 0 ==> s[k] == c)
    ensures forall j :: k < j < |s| ==> s[j] != c
  {
    LastIndexTo(s, c, |s|)
  }

  /** unicode.IsSpace. */
  predicate IsSpace(c: char) {
    var n := c as int;
    || 0x09 <= n <= 0x0D || n == 0x20 || n == 0x85 || n == 0xA0 || n == 0x1680
    || 0x2000 <= n <= 0x200A || n == 0x2028 || n == 0x2029 || n == 0x202F || n == 0x205F || n == 0x3000
  }

  /** The first space from `i` on; the length when there is none. */
  function SpaceFrom(s: string, i: nat): (k: nat)
    requires i <= |s|
    ensures i <= k <= |s| && (k < |s| ==> IsSpace(s[k]))
    ensures forall j :: i <= j < k ==> !IsSpace(s[j])
    decreases |s| - i
  {
    if i == |s| || IsSpace(s[i]) then i else SpaceFrom(s, i + 1)
  }

  /** The first character from `i` on that is no space; the length when there is none. */
  function NonSpaceFrom(s: string, i: nat): (k: nat)
    requires i <= |s|
    ensures i <= k <= |s| && (k < |s| ==> !IsSpace(s[k]))
    ensures forall j :: i <= j < k ==> IsSpace(s[j])
    decreases |s| - i
  {
    if i == |s| || !IsSpace(s[i]) then i else NonSpaceFrom(s, i + 1)
  }

  /** How much of `s` is left when the spaces at its end are dropped. */
  function TrimmedTo(s: string, n: nat): (k: nat)
    requires n <= |s|
    ensures k <= n && (k > 0 ==> !IsSpace(s[k - 1]))
    ensures forall j :: k <= j < n ==> IsSpace(s[j])
  {
    if n == 0 || !IsSpace(s[n - 1]) then n else TrimmedTo(s, n - 1)
  }

  function TrimLeft(s: string): (r: string)
    ensures r == [] || !IsSpace(r[0])
    ensures |r| <= |s|
  {
    s[NonSpaceFrom(s, 0)..]
  }

  function TrimRight(s: string): string {
    s[..TrimmedTo(s, |s|)]
  }

  function TrimSpace(s: string): string {
    TrimRight(TrimLeft(s))
  }

  /** strings.Fields: the runs of characters that are no spaces. */
  function Fields(s: string): seq<string>
    decreases |s|
  {
    var t := TrimLeft(s);
    if t == [] then []
    else
      var i := SpaceFrom(t, 0);
      [t[..i]] + Fields(t[i..])
  }

  /** The parts of `s` between occurrences of `c`; at least one. */
  function Split(s: string, c: char): (parts: seq<string>)
    ensures parts != []
    decreases |s|
  {
    var i := IndexOf(s, c);
    if i == |s| then [s] else [s[..i]] + Split(s[i + 1..], c)
  }

  /** What precedes the first `c`, and what follows it ("" when there is none). */
  function Partition(s: string, c: char): (string, string) {
    var i := IndexOf(s, c);
    if i == |s| then (s, "") else (s[..i], s[i + 1..])
  }

  /** Python's str.split(): its spaces are Go's and four control characters. */
  function PythonFields(s: string): seq<string> {
    Fields(seq(|s|, i requires 0 <= i < |s| => if 0x1C <= s[i] as int <= 0x1F then ' ' else s[i]))
  }

  // --- what these come to -------------------------------------------------------------------

  /** Parts with a character between each two. */
  function Joined(parts: seq<string>, c: char): string
    requires parts != []
  {
    if |parts| == 1 then parts[0] else parts[0] + [c] + Joined(parts[1..], c)
  }

  /** Split and join are inverse: the parts hold no separator and are the text when joined. */
  lemma {:induction false} SplitMeans(s: string, c: char)
    ensures Joined(Split(s, c), c) == s && forall part :: part in Split(s, c) ==> c !in part
    decreases |s|
  {
    var i := IndexOf(s, c);
    if i < |s| {
      var rest := Split(s[i + 1..], c);
      SplitMeans(s[i + 1..], c);
      assert Split(s, c)[1..] == rest;
      assert s == s[..i] + [s[i]] + s[i + 1..];
    }
  }

  /** The spaces, one by one. */
  lemma SpacesAre(c: char)
    ensures IsSpace(c) <==>
            c as int in {9, 10, 11, 12, 13, 32, 133, 160, 5760, 8192, 8193, 8194, 8195, 8196, 8197, 8198, 8199, 8200, 8201, 8202,
                         8232, 8233, 8239, 8287, 12288}
  {
  }

  predicate AllSpaces(s: string, isSpace: char -> bool) { forall i :: 0 <= i < |s| ==> isSpace(s[i]) }

  predicate NoSpaces(s: string, isSpace: char -> bool) { forall i :: 0 <= i < |s| ==> !isSpace(s[i]) }

  /** A text without spaces at its ends, and the spaces it had there. */
  lemma TrimSpaceMeans(s: string) returns (before: string, after: string)
    ensures s == before + TrimSpace(s) + after && AllSpaces(before, IsSpace) && AllSpaces(after, IsSpace)
    ensures TrimSpace(s) != "" ==> !IsSpace(TrimSpace(s)[0]) && !IsSpace(TrimSpace(s)[|TrimSpace(s)| - 1])
  {
    var l := TrimLeft(s);
    before, after := s[..NonSpaceFrom(s, 0)], l[TrimmedTo(l, |l|)..];
    InThree(s, NonSpaceFrom(s, 0), TrimmedTo(l, |l|));
  }

  /** Gaps and parts in turn. */
  function Woven(gaps: seq<string>, parts: seq<string>): string
    requires |gaps| == |parts| + 1
  {
    if parts == [] then gaps[0] else gaps[0] + parts[0] + Woven(gaps[1..], parts[1..])
  }

  /** The parts of `s` are its runs of characters that are no spaces: it is those with
      spaces between each two of them, and maybe at its ends. */
  ghost predicate Runs(s: string, parts: seq<string>, gaps: seq<string>, isSpace: char -> bool) {
    && |gaps| == |parts| + 1 && s == Woven(gaps, parts)
    && (forall i :: 0 <= i < |gaps| ==> AllSpaces(gaps[i], isSpace) && (0 < i < |parts| ==> gaps[i] != ""))
    && (forall i :: 0 <= i < |parts| ==> parts[i] != "" && NoSpaces(parts[i], isSpace))
  }

  /** One part more, in front. */
  lemma RunsMore(before: string, part: string, s: string, parts: seq<string>, gaps: seq<string>, isSpace: char -> bool)
    requires Runs(s, parts, gaps, isSpace) && AllSpaces(before, isSpace) && part != "" && NoSpaces(part, isSpace)
    requires parts != [] ==> gaps[0] != ""
    ensures Runs(before + part + s, [part] + parts, [before] + gaps, isSpace)
  {
    assert ([before] + gaps)[1..] == gaps && ([part] + parts)[1..] == parts;
  }

  /** A text that starts with a part starts with no space. */
  lemma StartsWithPart(s: string, parts: seq<string>, gaps: seq<string>, isSpace: char -> bool)
    requires Runs(s, parts, gaps, isSpace) && parts != [] && gaps[0] == ""
    ensures s != "" && !isSpace(s[0])
  {
    assert s[0] == parts[0][0];
  }

  lemma GapAfter(t: string, i: nat, parts: seq<string>, gaps: seq<string>)
    requires i <= |t| && Runs(t[i..], parts, gaps, IsSpace) && (i < |t| ==> IsSpace(t[i]))
    ensures parts != [] ==> gaps[0] != ""
  {
    if parts != [] && gaps[0] == "" {
      StartsWithPart(t[i..], parts, gaps, IsSpace);
    }
  }

  lemma NoRuns(s: string, isSpace: char -> bool)
    requires AllSpaces(s, isSpace)
    ensures Runs(s, [], [s], isSpace)
  {
  }

  /** The first field of a text, with the spaces before it and what follows. */
  lemma FirstField(s: string, k: nat, i: nat)
    requires k == NonSpaceFrom(s, 0) < |s| && i == SpaceFrom(s[k..], 0)
    ensures s == s[..k] + s[k..][..i] + s[k..][i..] && Fields(s) == [s[k..][..i]] + Fields(s[k..][i..])
    ensures AllSpaces(s[..k], IsSpace) && s[k..][..i] != "" && NoSpaces(s[k..][..i], IsSpace)
  {
    assert TrimLeft(s) == s[k..] && s[k..] != [];
    InThree(s, k, i);
  }

  lemma InThree(s: string, k: nat, i: nat)
    requires k <= |s| && i <= |s| - k
    ensures s == s[..k] + s[k..][..i] + s[k..][i..]
  {
    var t := s[k..];
    assert t == t[..i] + t[i..] && s == s[..k] + t;
    assert s[..k] + (t[..i] + t[i..]) == s[..k] + t[..i] + t[i..];
  }

  lemma {:induction false} FieldsMean(s: string) returns (gaps: seq<string>)
    ensures Runs(s, Fields(s), gaps, IsSpace)
    decreases |s|
  {
    var k := NonSpaceFrom(s, 0);
    if k == |s| {
      NoRuns(s, IsSpace);
      gaps := [s];
    } else {
      var i := SpaceFrom(s[k..], 0);
      FirstField(s, k, i);
      var rest := FieldsMean(s[k..][i..]);
      GapAfter(s[k..], i, Fields(s[k..][i..]), rest);
      RunsMore(s[..k], s[k..][..i], s[k..][i..], Fields(s[k..][i..]), rest, IsSpace);
      gaps := [s[..k]] + rest;
    }
  }

  /** str.isspace. */
  predicate PythonSpace(c: char) { IsSpace(c) || 0x1C <= c as int <= 0x1F }

  /** `t` is `s` with the four control characters made spaces. */
  predicate Blanked(s: string, t: string) {
    |s| == |t| && forall i :: 0 <= i < |s| ==> if 0x1C <= s[i] as int <= 0x1F then t[i] == ' ' else t[i] == s[i]
  }

  /** One part less, in front. */
  lemma RunsLess(t: string, parts: seq<string>, gaps: seq<string>, isSpace: char -> bool) returns (rest: string)
    requires Runs(t, parts, gaps, isSpace) && parts != []
    ensures t == gaps[0] + parts[0] + rest && Runs(rest, parts[1..], gaps[1..], isSpace)
    ensures |parts| > 1 ==> gaps[1] != ""
  {
    rest := Woven(gaps[1..], parts[1..]);
  }

  lemma BlankedGap(s: string, t: string)
    requires Blanked(s, t) && AllSpaces(t, IsSpace)
    ensures AllSpaces(s, PythonSpace)
  {
  }

  lemma BlankedPart(s: string, t: string)
    requires Blanked(s, t) && NoSpaces(t, IsSpace)
    ensures s == t && NoSpaces(s, PythonSpace)
  {
    assert IsSpace(' ');
  }

  lemma BlankedPieces(s: string, gap: string, part: string, rest: string)
    requires Blanked(s, gap + part + rest)
    ensures var g, p := |gap|, |part|;
            && s == s[..g] + s[g..g + p] + s[g + p..]
            && Blanked(s[..g], gap) && Blanked(s[g..g + p], part) && Blanked(s[g + p..], rest)
  {
    var t, g, p := gap + part + rest, |gap|, |part|;
    assert t[..g] == gap && t[g..g + p] == part && t[g + p..] == rest;
  }

  lemma {:induction false} SameRuns(s: string, t: string, parts: seq<string>, gaps: seq<string>) returns (more: seq<string>)
    requires Runs(t, parts, gaps, IsSpace) && Blanked(s, t)
    ensures Runs(s, parts, more, PythonSpace) && |more[0]| == |gaps[0]|
    decreases |parts|
  {
    var g := |gaps[0]|;
    if parts == [] {
      BlankedGap(s, t);
      more := [s];
    } else {
      var p := |parts[0]|;
      var rest := RunsLess(t, parts, gaps, IsSpace);
      BlankedPieces(s, gaps[0], parts[0], rest);
      BlankedGap(s[..g], gaps[0]);
      BlankedPart(s[g..g + p], parts[0]);
      var r := SameRuns(s[g + p..], rest, parts[1..], gaps[1..]);
      RunsMore(s[..g], parts[0], s[g + p..], parts[1..], r, PythonSpace);
      assert [parts[0]] + parts[1..] == parts;
      more := [s[..g]] + r;
    }
  }

  lemma PythonFieldsMean(s: string) returns (gaps: seq<string>)
    ensures Runs(s, PythonFields(s), gaps, PythonSpace)
  {
    var t := seq(|s|, i requires 0 <= i < |s| => if 0x1C <= s[i] as int <= 0x1F then ' ' else s[i]);
    var g := FieldsMean(t);
    gaps := SameRuns(s, t, Fields(t), g);
  }
}
