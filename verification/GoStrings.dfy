/** The part of Go's `strings` package that the checker relies on.  A Go string is the
    sequence of its bytes; it is represented here with one `char` for each byte. */
module GoStrings {
  predicate HasPrefix(s: string, prefix: string) {
    prefix <= s
  }

  predicate HasSuffix(s: string, suffix: string) {
    |suffix| <= |s| && s[|s| - |suffix|..] == suffix
  }

  predicate Contains(s: string, c: char) {
    c in s
  }

  function TrimPrefix(s: string, prefix: string): string {
    if prefix <= s then s[|prefix|..] else s
  }

  /** `strings.Split(s, sep)` for a one-byte separator: never empty. */
  function Split(s: string, sep: char): (parts: seq<string>)
    ensures parts != []
    ensures forall p | p in parts :: sep !in p
  {
    if s == "" then [""]
    else if s[0] == sep then [""] + Split(s[1..], sep)
    else
      var rest := Split(s[1..], sep);
      [[s[0]] + rest[0]] + rest[1..]
  }

  /** `strings.Join(parts, sep)` for a one-byte separator. */
  function Join(parts: seq<string>, sep: char): string {
    if parts == [] then ""
    else if |parts| == 1 then parts[0]
    else parts[0] + [sep] + Join(parts[1..], sep)
  }

  lemma {:induction false} JoinSplit(s: string, sep: char)
    ensures Join(Split(s, sep), sep) == s
  {
    if s != "" {
      JoinSplit(s[1..], sep);
      var rest := Split(s[1..], sep);
      if s[0] == sep {
        assert ([""] + rest)[1..] == rest;
      } else {
        assert ([[s[0]] + rest[0]] + rest[1..])[1..] == rest[1..];
      }
    }
  }

  lemma {:induction false} SplitJoin(parts: seq<string>, sep: char)
    requires parts != [] && forall p | p in parts :: sep !in p
    ensures Split(Join(parts, sep), sep) == parts
    decreases |parts|, if parts == [] then 0 else |parts[0]|
  {
    var head := parts[0];
    assert head in parts;
    if head != "" {
      var shorter := [head[1..]] + parts[1..];
      assert shorter[1..] == parts[1..];
      assert head == [head[0]] + head[1..];
      assert Join(parts, sep) == [head[0]] + Join(shorter, sep);
      assert forall p | p in parts[1..] :: p in parts;
      SplitJoin(shorter, sep);
      assert Join(parts, sep)[1..] == Join(shorter, sep);
      assert [[head[0]] + shorter[0]] + shorter[1..] == parts;
    } else if |parts| > 1 {
      SplitJoin(parts[1..], sep);
      assert Join(parts, sep) == [sep] + Join(parts[1..], sep);
      assert Join(parts, sep)[1..] == Join(parts[1..], sep);
    }
  }

  lemma {:induction false} JoinConcat(a: seq<string>, b: seq<string>, sep: char)
    requires a != [] && b != []
    ensures Join(a + b, sep) == Join(a, sep) + [sep] + Join(b, sep)
  {
    assert (a + b)[1..] == a[1..] + b;
    if |a| > 1 {
      JoinConcat(a[1..], b, sep);
    }
  }

  /** Splitting at a known separator: the parts before it, then the parts after it. */
  lemma {:induction false} SplitAt(s: string, sep: char, j: nat)
    requires j < |s| && s[j] == sep
    ensures Split(s, sep) == Split(s[..j], sep) + Split(s[j + 1..], sep)
  {
    if j > 0 {
      SplitAt(s[1..], sep, j - 1);
      assert s[1..][..j - 1] == s[..j][1..];
      assert s[1..][j..] == s[j + 1..];
    } else {
      assert s[..0] == "";
    }
  }

  /** `s` is `before`, `p` and `after`, with a separator wherever two of them meet. */
  ghost predicate Around(s: string, sep: char, before: string, p: string, after: string) {
    && s == before + p + after
    && (before == "" || before[|before| - 1] == sep) && (after == "" || after[0] == sep)
  }

  /** `p` stands in `s` between two separators, or between one and an end of `s`. */
  ghost predicate StandsBetween(s: string, sep: char, p: string) {
    sep !in p && exists before, after :: Around(s, sep, before, p, after)
  }

  /** The parts of a split are exactly the separator-free stretches between separators. */
  lemma SplitMembers(s: string, sep: char, p: string)
    ensures p in Split(s, sep) <==> StandsBetween(s, sep, p)
  {
    var parts := Split(s, sep);
    if p in parts {
      var i :| 0 <= i < |parts| && parts[i] == p;
      PartStandsBetween(s, sep, i);
    }
    if StandsBetween(s, sep, p) {
      var before, after :| Around(s, sep, before, p, after);
      PartFound(s, sep, before, p, after);
    }
  }

  /** What follows a part, and what goes before it. */
  function PartsAfter(parts: seq<string>, sep: char): string {
    if parts == [] then "" else [sep] + Join(parts, sep)
  }

  function PartsBefore(parts: seq<string>, sep: char): string {
    if parts == [] then "" else Join(parts, sep) + [sep]
  }

  lemma JoinAround(parts: seq<string>, sep: char, i: nat)
    requires i < |parts|
    ensures Join(parts, sep) == PartsBefore(parts[..i], sep) + parts[i] + PartsAfter(parts[i + 1..], sep)
  {
    var tail := parts[i..];
    assert tail[0] == parts[i] && tail[1..] == parts[i + 1..];
    assert Join(tail, sep) == parts[i] + PartsAfter(parts[i + 1..], sep);
    if i == 0 {
      assert tail == parts;
    } else {
      JoinConcat(parts[..i], tail, sep);
      assert parts == parts[..i] + tail;
      hide Join;
    }
  }

  lemma PartStandsBetween(s: string, sep: char, i: nat)
    requires i < |Split(s, sep)|
    ensures StandsBetween(s, sep, Split(s, sep)[i])
  {
    var parts := Split(s, sep);
    JoinSplit(s, sep);
    JoinAround(parts, sep, i);
    hide Split, Join;
    assert Around(s, sep, PartsBefore(parts[..i], sep), parts[i], PartsAfter(parts[i + 1..], sep));
  }

  lemma PartFound(s: string, sep: char, before: string, p: string, after: string)
    requires Around(s, sep, before, p, after) && sep !in p
    ensures p in Split(s, sep)
  {
    var rest := p + after;
    if after == "" {
      assert rest == p;
      SplitJoin([p], sep);
    } else {
      SplitAt(rest, sep, |p|);
      assert rest[..|p|] == p;
      SplitJoin([p], sep);
    }
    assert p in Split(rest, sep);
    if before == "" {
      assert s == rest;
    } else {
      SplitAt(s, sep, |before| - 1);
      assert s[|before| - 1 + 1..] == rest;
    }
  }

  /** `p` is what is left of `s` after one of its dots: `"." + p` ends `s`. */
  predicate DotSuffix(p: string, s: string) {
    |p| < |s| && s[|s| - |p| - 1] == '.' && s[|s| - |p|..] == p
  }

  lemma DotSuffixIsHasSuffix(p: string, s: string)
    ensures DotSuffix(p, s) <==> HasSuffix(s, "." + p)
  {
    if |p| < |s| {
      var tail := s[|s| - |p| - 1..];
      assert tail == [tail[0]] + s[|s| - |p|..];
    }
  }

  /** The string the suffix loops test in round `i`: `strings.Join(parts[i:], ".")`. */
  function SuffixAt(s: string, i: nat): string
    requires i < |Split(s, '.')|
  {
    Join(Split(s, '.')[i..], '.')
  }

  /** Every round of the suffix loop tests a dot-suffix... */
  lemma SuffixAtIsDotSuffix(s: string, i: nat)
    requires 1 <= i < |Split(s, '.')|
    ensures DotSuffix(SuffixAt(s, i), s)
  {
    var parts := Split(s, '.');
    JoinSplit(s, '.');
    JoinConcat(parts[..i], parts[i..], '.');
    assert parts == parts[..i] + parts[i..];
    var p := SuffixAt(s, i);
    assert s == Join(parts[..i], '.') + ['.'] + p;
    assert s[|s| - |p|..] == p;
  }

  /** ...every dot-suffix is tested in some round... */
  lemma DotSuffixHasRound(p: string, s: string) returns (i: nat)
    requires DotSuffix(p, s)
    ensures 1 <= i < |Split(s, '.')| && SuffixAt(s, i) == p
  {
    var j := |s| - |p| - 1;
    SplitAt(s, '.', j);
    i := |Split(s[..j], '.')|;
    assert Split(s, '.')[i..] == Split(p, '.');
    JoinSplit(p, '.');
  }

  /** ...and later rounds test strictly shorter ones. */
  lemma SuffixAtShrinks(s: string, i: nat, j: nat)
    requires i < j < |Split(s, '.')|
    ensures |SuffixAt(s, j)| < |SuffixAt(s, i)|
  {
    var parts := Split(s, '.');
    assert parts[i..] == parts[i..j] + parts[j..];
    JoinConcat(parts[i..j], parts[j..], '.');
  }

  /** The suffix loop enumerates exactly the dot-suffixes of `s`, longest first. */
  lemma SuffixLoop(s: string, p: string)
    ensures DotSuffix(p, s) <==> exists i :: 1 <= i < |Split(s, '.')| && SuffixAt(s, i) == p
    ensures forall i, j | 1 <= i < j < |Split(s, '.')| :: |SuffixAt(s, j)| < |SuffixAt(s, i)|
  {
    if DotSuffix(p, s) {
      var i := DotSuffixHasRound(p, s);
    }
    forall i | 1 <= i < |Split(s, '.')| ensures DotSuffix(SuffixAt(s, i), s) {
      SuffixAtIsDotSuffix(s, i);
    }
    forall i, j | 1 <= i < j < |Split(s, '.')| ensures |SuffixAt(s, j)| < |SuffixAt(s, i)| {
      SuffixAtShrinks(s, i, j);
    }
  }
}
