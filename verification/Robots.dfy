/** robots.txt path patterns: the leftmost-greedy wildcard matcher against
    fillings of the stars (section 2.2.3 of RFC 9309). */
module Robots {
  import opened Text

  // ----- fillings ----------------------------------------------------------

  /** Each piece behind a filled star. */
  function GapFill(parts: seq<string>, fills: seq<string>): string
    requires |fills| == |parts|
  {
    if parts == [] then "" else fills[0] + parts[0] + GapFill(parts[1..], fills[1..])
  }

  /** A pattern, given as its pieces between stars, with the stars filled. */
  function Fill(parts: seq<string>, fills: seq<string>): string
    requires |parts| == |fills| + 1
  {
    parts[0] + GapFill(parts[1..], fills)
  }

  predicate FillsTo(parts: seq<string>, fills: seq<string>, text: string) {
    |parts| == |fills| + 1 && Fill(parts, fills) == text
  }

  /** Some filling of the stars makes the pattern equal to `text`. */
  ghost predicate Matches(pattern: string, text: string) {
    exists fills :: FillsTo(Split(pattern, '*'), fills, text)
  }

  /** Some filling makes the pattern a prefix of `path`. */
  ghost predicate MatchesPrefix(pattern: string, path: string) {
    exists end: nat :: end <= |path| && Matches(pattern, path[..end])
  }

  // ----- the greedy matcher ------------------------------------------------

  /** Where the greedy matcher stands after the pieces behind stars, or -1. */
  function GreedyTail(path: string, parts: seq<string>, pos: nat): (end: int)
    requires pos <= |path|
    ensures end == -1 || pos <= end <= |path|
    decreases |parts|
  {
    if parts == [] then pos
    else if parts[0] == "" then GreedyTail(path, parts[1..], pos)
    else
      var at := Find(path, parts[0], pos);
      if at == -1 then -1 else GreedyTail(path, parts[1..], at + |parts[0]|)
  }

  function GreedyEnd(path: string, parts: seq<string>): (end: int)
    requires |parts| >= 1
    ensures end == -1 || 0 <= end <= |path|
  {
    if parts[0] <= path then GreedyTail(path, parts[1..], |parts[0]|) else -1
  }

  /** Taking the first piece at its leftmost place. */
  lemma TailStep(path: string, parts: seq<string>, pos: nat)
    requires pos <= |path| && parts != []
    ensures var at := Find(path, parts[0], pos);
            && (parts[0] == "" ==> at == pos)
            && GreedyTail(path, parts, pos) == if at == -1 then -1 else GreedyTail(path, parts[1..], at + |parts[0]|)
  {
  }

  /** What the matcher reaches is a filling. */
  lemma {:induction false} GreedyFills(path: string, parts: seq<string>, pos: nat) returns (fills: seq<string>)
    requires pos <= |path| && GreedyTail(path, parts, pos) != -1
    ensures |fills| == |parts| && GapFill(parts, fills) == path[pos..GreedyTail(path, parts, pos)]
    decreases |parts|
  {
    hide GreedyTail, GapFill, Find;
    if parts == [] {
      fills := [];
      NoPieces(path, pos);
    } else {
      var at := Find(path, parts[0], pos);
      var next := at + |parts[0]|;
      TailStep(path, parts, pos);
      var rest := GreedyFills(path, parts[1..], next);
      var end := GreedyTail(path, parts, pos);
      fills := [path[pos..at]] + rest;
      assert fills[1..] == rest;
      GapStep(parts, fills);
      ThreeSlices(path, pos, at, next, end);
    }
  }

  lemma GapStep(parts: seq<string>, fills: seq<string>)
    requires |fills| == |parts| && parts != []
    ensures GapFill(parts, fills) == fills[0] + parts[0] + GapFill(parts[1..], fills[1..])
  {
  }

  lemma ThreeSlices(s: string, a: nat, b: nat, c: nat, d: nat)
    requires a <= b <= c <= d <= |s|
    ensures s[a..b] + s[b..c] + s[c..d] == s[a..d]
  {
  }

  /** The exchange argument: a filling that starts no earlier ends no earlier
      than the greedy one. */
  lemma {:induction false} GreedyIsEarliest(path: string, parts: seq<string>, pos: nat, start: nat, fills: seq<string>)
    requires pos <= start <= |path| && |fills| == |parts|
    requires start + |GapFill(parts, fills)| <= |path|
    requires path[start..start + |GapFill(parts, fills)|] == GapFill(parts, fills)
    ensures 0 <= GreedyTail(path, parts, pos) <= start + |GapFill(parts, fills)|
    decreases |parts|
  {
    hide GreedyTail, GapFill, Find;
    if parts == [] {
      NoPieces(path, pos);
    } else {
      var next := start + |fills[0]| + |parts[0]|;
      FilledPieces(path, parts, start, fills);
      TailStep(path, parts, pos);
      FindIsLeftmost(path, parts[0], pos, start + |fills[0]|);
      GreedyIsEarliest(path, parts[1..], Find(path, parts[0], pos) + |parts[0]|, next, fills[1..]);
    }
  }

  lemma NoPieces(path: string, pos: nat)
    requires pos <= |path|
    ensures GreedyTail(path, [], pos) == pos && GapFill([], []) == ""
  {
  }

  /** Where the first piece of a filling and its rest stand. */
  lemma FilledPieces(path: string, parts: seq<string>, start: nat, fills: seq<string>)
    requires |fills| == |parts| && parts != []
    requires start + |GapFill(parts, fills)| <= |path|
    requires path[start..start + |GapFill(parts, fills)|] == GapFill(parts, fills)
    ensures var rest := GapFill(parts[1..], fills[1..]);
            && |GapFill(parts, fills)| == |fills[0]| + |parts[0]| + |rest|
            && path[start + |fills[0]|..start + |fills[0]| + |parts[0]|] == parts[0]
            && path[start + |fills[0]| + |parts[0]|..start + |fills[0]| + |parts[0]| + |rest|] == rest
  {
    hide GapFill;
    GapStep(parts, fills);
    SecondPiece(path, start, fills[0], parts[0], GapFill(parts[1..], fills[1..]));
    ThirdPiece(path, start, fills[0], parts[0], GapFill(parts[1..], fills[1..]));
  }

  lemma SecondPiece(path: string, start: nat, a: string, b: string, c: string)
    requires start + |a + b + c| <= |path| && path[start..start + |a + b + c|] == a + b + c
    ensures path[start + |a|..start + |a| + |b|] == b
  {
    var whole := path[start..start + |a + b + c|];
    forall i | 0 <= i < |b| ensures path[start + |a| + i] == b[i] {
      assert path[start + |a| + i] == whole[|a| + i];
    }
  }

  lemma ThirdPiece(path: string, start: nat, a: string, b: string, c: string)
    requires start + |a + b + c| <= |path| && path[start..start + |a + b + c|] == a + b + c
    ensures path[start + |a| + |b|..start + |a| + |b| + |c|] == c
  {
    var whole := path[start..start + |a + b + c|];
    forall i | 0 <= i < |c| ensures path[start + |a| + |b| + i] == c[i] {
      assert path[start + |a| + |b| + i] == whole[|a| + |b| + i];
    }
  }

  /** The greedy matcher ends where the shortest match of the pattern at the
      start of the path ends, and fails exactly when there is none. */
  lemma GreedyIsShortest(path: string, pattern: string)
    ensures var end := GreedyEnd(path, Split(pattern, '*'));
            && (end >= 0 <==> MatchesPrefix(pattern, path))
            && (end >= 0 ==> Matches(pattern, path[..end]))
            && (forall shorter: nat | shorter < end :: !Matches(pattern, path[..shorter]))
  {
    hide GreedyTail, GapFill, Split;
    var parts := Split(pattern, '*');
    var end := GreedyEnd(path, parts);
    if end >= 0 {
      var fills := GreedyFills(path, parts[1..], |parts[0]|);
      assert parts[0] + path[|parts[0]|..end] == path[..end];
      assert FillsTo(parts, fills, path[..end]);
    }
    forall m: nat | m <= |path| && Matches(pattern, path[..m]) ensures 0 <= end <= m {
      var fills :| FillsTo(parts, fills, path[..m]);
      var rest := GapFill(parts[1..], fills);
      assert path[..m] == parts[0] + rest;
      assert path[..|parts[0]|] == path[..m][..|parts[0]|] == parts[0];
      assert path[|parts[0]|..m] == path[..m][|parts[0]|..] == rest;
      GreedyIsEarliest(path, parts[1..], |parts[0]|, |parts[0]|, fills);
    }
  }

  // ----- the code ----------------------------------------------------------

  function PathMatches(path: string, pattern: string): bool {
    if pattern == "" then false
    else if pattern[|pattern| - 1] == '$' then
      var base := pattern[..|pattern| - 1];
      if '*' in base then GreedyEnd(path, Split(base, '*')) == |path| else path == base
    else if '*' in pattern then GreedyEnd(path, Split(pattern, '*')) >= 0
    else pattern <= path
  }

  lemma {:induction false} SplitStartsEmpty(pattern: string)
    ensures Split(pattern, '*')[0] == "" <==> pattern == "" || pattern[0] == '*'
    ensures Split(pattern, '*')[0] <= pattern
  {
    if pattern != "" && pattern[0] != '*' {
      SplitStartsEmpty(pattern[1..]);
    }
  }

  /** The first piece must stand at the beginning, unless the pattern starts with a
      star. */
  lemma FirstPiece(path: string, pattern: string)
    ensures var parts := Split(pattern, '*'); var at := Find(path, parts[0], 0);
            && (parts[0] == "" ==> GreedyEnd(path, parts) == GreedyTail(path, parts[1..], 0))
            && (parts[0] != "" ==>
                  && !("*" <= pattern)
                  && GreedyEnd(path, parts) == if at == 0 then GreedyTail(path, parts[1..], |parts[0]|) else -1)
  {
    hide Split, Find, GreedyTail;
    var parts := Split(pattern, '*');
    SplitStartsEmpty(pattern);
    if parts[0] <= path { FindIsLeftmost(path, parts[0], 0, 0); }
  }

  /** `_wildcard_match`: one pass over the pieces, each at its leftmost place. */
  method WildcardMatch(path: string, pattern: string, anchored: bool) returns (matched: bool)
    ensures matched == if anchored then GreedyEnd(path, Split(pattern, '*')) == |path|
                       else GreedyEnd(path, Split(pattern, '*')) >= 0
  {
    hide Split, Find, GreedyTail, GreedyEnd;
    var parts := Split(pattern, '*');
    FirstPiece(path, pattern);
    var pos := 0;
    for i := 0 to |parts|
      invariant 0 <= pos <= |path|
      invariant i == 0 ==> pos == 0
      invariant i > 0 ==> GreedyEnd(path, parts) == GreedyTail(path, parts[i..], pos)
    {
      var part := parts[i];
      assert parts[i..][1..] == parts[i + 1..] && parts[i..][0] == part;
      TailStep(path, parts[i..], pos);
      if part == "" { continue; }
      var at := Find(path, part, pos);
      if at == -1 { return false; }
      if i == 0 && !("*" <= pattern) {
        if at != 0 { return false; }
      }
      pos := at + |part|;
    }
    assert parts[|parts|..] == [];
    NoPieces(path, pos);
    if anchored { return pos == |path|; }
    return true;
  }

  method PathMatchesCode(path: string, pattern: string) returns (matched: bool)
    ensures matched == PathMatches(path, pattern)
  {
    if pattern == "" { return false; }
    if pattern[|pattern| - 1] == '$' {
      var base := pattern[..|pattern| - 1];
      if '*' in base {
        matched := WildcardMatch(path, base, true);
        return;
      }
      return path == base;
    }
    if '*' in pattern {
      matched := WildcardMatch(path, pattern, false);
      return;
    }
    return pattern <= path;
  }

  // ----- what a rule means -------------------------------------------------

  lemma PlainFill(pattern: string, text: string)
    requires '*' !in pattern
    ensures Matches(pattern, text) <==> text == pattern
  {
    SplitNoSep(pattern, '*');
    var parts := Split(pattern, '*');
    assert parts[1..] == [];
    if text == pattern {
      assert FillsTo(parts, [], text);
    }
  }

  /** A pattern without `$` matches exactly the paths some filling of which it
      is a prefix; the empty pattern matches nothing. */
  lemma PrefixPatternsMatch(path: string, pattern: string)
    requires pattern == "" || pattern[|pattern| - 1] != '$'
    ensures PathMatches(path, pattern) <==> pattern != "" && MatchesPrefix(pattern, path)
  {
    hide GreedyEnd, Matches, Split;
    if pattern != "" {
      GreedyIsShortest(path, pattern);
      if '*' !in pattern {
        if pattern <= path {
          PlainFill(pattern, path[..|pattern|]);
        }
        if MatchesPrefix(pattern, path) {
          var end: nat :| end <= |path| && Matches(pattern, path[..end]);
          PlainFill(pattern, path[..end]);
        }
      }
    }
  }

  /** A pattern with `$` matches exactly the paths that a filling equals and of
      which no filling is a shorter prefix. */
  lemma AnchoredPatternsMatch(path: string, base: string)
    ensures PathMatches(path, base + "$") <==>
              Matches(base, path) && forall shorter: nat | shorter < |path| :: !Matches(base, path[..shorter])
  {
    hide GreedyEnd, Matches, Split;
    var pattern := base + "$";
    assert pattern[..|pattern| - 1] == base;
    assert path[..|path|] == path;
    if '*' in base {
      GreedyIsShortest(path, base);
    } else {
      PlainFill(base, path);
      forall shorter: nat | shorter < |path| && path == base ensures !Matches(base, path[..shorter]) {
        PlainFill(base, path[..shorter]);
      }
    }
  }

  /** So `$` patterns can miss: the star could stretch to the second "a", but
      the matcher stops at the first. */
  lemma AnchoredMisses()
    ensures Matches("/*a", "/aba") && !PathMatches("/aba", "/*a$")
  {
    SplitAround("/", "a");
    OneStarFills("/", "ab", "a");
    OneStarFills("/", "", "a");
    assert "/" + "ab" + "a" == "/aba" && "/" + "" + "a" == "/aba"[..2] && "/*a" == "/" + "*" + "a";
    AnchoredPatternsMatch("/aba", "/*a");
    assert "/*a" + "$" == "/*a$";
  }

  lemma SplitAround(a: string, b: string)
    requires '*' !in a && '*' !in b
    ensures Split(a + "*" + b, '*') == [a, b]
  {
    var parts := [a, b];
    SplitJoin(parts, '*');
    assert parts[1..] == [b];
    assert Join(parts, "*") == a + "*" + b;
  }

  lemma OneStarFills(a: string, fill: string, b: string)
    requires '*' !in a && '*' !in b
    ensures Matches(a + "*" + b, a + fill + b)
  {
    SplitAround(a, b);
    var parts, fills := [a, b], [fill];
    assert parts[1..] == [b] && parts[1..][1..] == [] && fills[1..] == [];
    assert GapFill([], []) == "";
    assert GapFill([b], fills) == fill + b;
    assert a + (fill + b) == a + fill + b;
    assert FillsTo(parts, fills, a + fill + b);
  }
}
