/** Ignore rules: the recursive "**" matcher, directory rules and the last-match decision
    (internal/workspace/gitignore.go).  Matching one component against one pattern component
    is a parameter m of this model. */
module GitIgnore {
  import opened Basics
  import opened Paths

  // ----- the matcher -------------------------------------------------------------------------

  /** Several "**" in a row count as the last of them. */
  function Collapse(pattern: seq<string>): (p: seq<string>)
    requires pattern != [] && pattern[0] == "**"
    ensures p != [] && |p| <= |pattern| && p[0] == "**" && (|p| > 1 ==> p[1] != "**")
  {
    if |pattern| > 1 && pattern[1] == "**" then Collapse(pattern[1..]) else pattern
  }

  predicate GlobMatch(m: (string, string) -> bool, pattern: seq<string>, name: seq<string>)
    decreases |pattern| + |name|
  {
    if pattern == [] then name == []
    else if pattern[0] == "**" then
      var p := Collapse(pattern);
      if |p| == 1 then |name| > 0
      else GlobMatch(m, p[1..], name) || (|name| > 0 && GlobMatch(m, p, name[1..]))
    else if name == [] then false
    else m(pattern[0], name[0]) && GlobMatch(m, pattern[1..], name[1..])
  }

  function Concat<T>(segments: seq<seq<T>>): seq<T> {
    if segments == [] then [] else segments[0] + Concat(segments[1..])
  }

  /** The part of the name that one pattern component takes: any number of components for "**",
      at least one when it comes last, and one matching component otherwise. */
  predicate Takes(m: (string, string) -> bool, component: string, last: bool, segment: seq<string>) {
    if component == "**" then last ==> |segment| >= 1
    else |segment| == 1 && m(component, segment[0])
  }

  /** The name, cut into these segments, fits the pattern. */
  ghost predicate Fits(m: (string, string) -> bool, pattern: seq<string>, name: seq<string>,
                       segments: seq<seq<string>>)
  {
    && |segments| == |pattern|
    && Concat(segments) == name
    && forall i :: 0 <= i < |pattern| ==> Takes(m, pattern[i], i == |pattern| - 1, segments[i])
  }

  lemma FitsPrepend(m: (string, string) -> bool, pattern: seq<string>, name: seq<string>, segments: seq<seq<string>>,
                    first: seq<string>)
    requires pattern != [] && Fits(m, pattern[1..], name, segments)
    requires Takes(m, pattern[0], |pattern| == 1, first)
    ensures Fits(m, pattern, first + name, [first] + segments)
  {
    assert ([first] + segments)[1..] == segments;
  }

  lemma FitsTail(m: (string, string) -> bool, pattern: seq<string>, name: seq<string>, segments: seq<seq<string>>)
    requires pattern != [] && Fits(m, pattern, name, segments)
    ensures Fits(m, pattern[1..], Concat(segments[1..]), segments[1..])
    ensures name == segments[0] + Concat(segments[1..])
  {
  }

  /** A leading "**" takes one more component. */
  lemma FitsGrow(m: (string, string) -> bool, pattern: seq<string>, name: seq<string>, segments: seq<seq<string>>,
                 first: string)
    requires pattern != [] && pattern[0] == "**" && Fits(m, pattern, name, segments)
    ensures Fits(m, pattern, [first] + name, [[first] + segments[0]] + segments[1..])
  {
    FitsTail(m, pattern, name, segments);
    FitsPrepend(m, pattern, Concat(segments[1..]), segments[1..], [first] + segments[0]);
    assert [first] + segments[0] + Concat(segments[1..]) == [first] + name;
  }

  lemma FitsShrink(m: (string, string) -> bool, pattern: seq<string>, name: seq<string>, segments: seq<seq<string>>)
    requires |pattern| > 1 && pattern[0] == "**" && Fits(m, pattern, name, segments) && segments[0] != []
    ensures name != [] && Fits(m, pattern, name[1..], [segments[0][1..]] + segments[1..])
  {
    FitsTail(m, pattern, name, segments);
    FitsPrepend(m, pattern, Concat(segments[1..]), segments[1..], segments[0][1..]);
    assert segments[0][1..] + Concat(segments[1..]) == name[1..];
  }

  /** Of two adjacent "**", the first may be dropped... */
  lemma FitsMerge(m: (string, string) -> bool, pattern: seq<string>, name: seq<string>, segments: seq<seq<string>>)
    requires |pattern| > 1 && pattern[0] == "**" && pattern[1] == "**" && Fits(m, pattern, name, segments)
    ensures Fits(m, pattern[1..], name, [segments[0] + segments[1]] + segments[2..])
  {
    FitsTail(m, pattern, name, segments);
    FitsTail(m, pattern[1..], Concat(segments[1..]), segments[1..]);
    assert segments[1..][1..] == segments[2..] && pattern[1..][1..] == pattern[2..];
    FitsPrepend(m, pattern[1..], Concat(segments[2..]), segments[2..], segments[0] + segments[1]);
    assert segments[0] + segments[1] + Concat(segments[2..]) == segments[0] + (segments[1] + Concat(segments[2..]));
  }

  /** ...or added, taking nothing. */
  lemma FitsDouble(m: (string, string) -> bool, pattern: seq<string>, name: seq<string>, segments: seq<seq<string>>)
    requires |pattern| > 1 && pattern[0] == "**" && Fits(m, pattern[1..], name, segments)
    ensures Fits(m, pattern, name, [[]] + segments)
  {
    FitsPrepend(m, pattern, name, segments, []);
    assert [] + name == name;
  }

  lemma {:induction false} CollapseFits(m: (string, string) -> bool, pattern: seq<string>, name: seq<string>,
                                        segments: seq<seq<string>>) returns (more: seq<seq<string>>)
    requires pattern != [] && pattern[0] == "**" && Fits(m, Collapse(pattern), name, segments)
    ensures Fits(m, pattern, name, more)
  {
    if |pattern| > 1 && pattern[1] == "**" {
      var rest := CollapseFits(m, pattern[1..], name, segments);
      FitsDouble(m, pattern, name, rest);
      more := [[]] + rest;
    } else {
      more := segments;
    }
  }

  /** A match gives a cut that fits. */
  lemma {:induction false} MatchGivesCut(m: (string, string) -> bool, pattern: seq<string>, name: seq<string>)
    returns (segments: seq<seq<string>>)
    requires GlobMatch(m, pattern, name)
    ensures Fits(m, pattern, name, segments)
    decreases |pattern| + |name|
  {
    if pattern == [] {
      segments := [];
    } else if pattern[0] == "**" {
      var p := Collapse(pattern);
      var cut;
      if |p| == 1 {
        cut := [name];
        assert Concat(cut[1..]) == [];
      } else if GlobMatch(m, p[1..], name) {
        var rest := MatchGivesCut(m, p[1..], name);
        FitsDouble(m, p, name, rest);
        cut := [[]] + rest;
      } else {
        var rest := MatchGivesCut(m, p, name[1..]);
        FitsGrow(m, p, name[1..], rest, name[0]);
        assert [name[0]] + name[1..] == name;
        cut := [[name[0]] + rest[0]] + rest[1..];
      }
      segments := CollapseFits(m, pattern, name, cut);
    } else {
      var rest := MatchGivesCut(m, pattern[1..], name[1..]);
      if |pattern| == 1 {
        assert rest == [];
      }
      FitsPrepend(m, pattern, name[1..], rest, [name[0]]);
      assert [name[0]] + name[1..] == name;
      segments := [[name[0]]] + rest;
    }
  }

  /** A cut that fits gives a match. */
  lemma {:induction false} CutGivesMatch(m: (string, string) -> bool, pattern: seq<string>, name: seq<string>,
                                         segments: seq<seq<string>>)
    requires Fits(m, pattern, name, segments)
    ensures GlobMatch(m, pattern, name)
    decreases |pattern| + |name|
  {
    if pattern != [] {
      FitsTail(m, pattern, name, segments);
      if pattern[0] == "**" {
        if |pattern| == 1 {
          assert name == segments[0];
        } else if pattern[1] == "**" {
          FitsMerge(m, pattern, name, segments);
          CutGivesMatch(m, pattern[1..], name, [segments[0] + segments[1]] + segments[2..]);
        } else if segments[0] == [] {
          assert Concat(segments[1..]) == name;
          CutGivesMatch(m, pattern[1..], name, segments[1..]);
        } else {
          FitsShrink(m, pattern, name, segments);
          CutGivesMatch(m, pattern, name[1..], [segments[0][1..]] + segments[1..]);
        }
      } else {
        assert name[1..] == Concat(segments[1..]) && name[0] == segments[0][0];
        CutGivesMatch(m, pattern[1..], name[1..], segments[1..]);
      }
    }
  }

  /** The matcher is true exactly when some cut of the name fits the pattern. */
  lemma MatchMeans(m: (string, string) -> bool, pattern: seq<string>, name: seq<string>)
    ensures GlobMatch(m, pattern, name) <==> exists segments :: Fits(m, pattern, name, segments)
  {
    if GlobMatch(m, pattern, name) {
      var segments := MatchGivesCut(m, pattern, name);
    }
    forall segments | Fits(m, pattern, name, segments)
      ensures GlobMatch(m, pattern, name)
    {
      CutGivesMatch(m, pattern, name, segments);
    }
  }

  /** Anywhere in a pattern, a "**" next to another one changes nothing. */
  lemma DoubleStarIsStar(m: (string, string) -> bool, before: seq<string>, after: seq<string>,
                         name: seq<string>)
    ensures GlobMatch(m, before + ["**", "**"] + after, name) <==> GlobMatch(m, before + ["**"] + after, name)
  {
    var two, one := before + ["**", "**"] + after, before + ["**"] + after;
    forall segments | Fits(m, two, name, segments)
      ensures exists fewer :: Fits(m, one, name, fewer)
    {
      var fewer := MergeAt(m, before, after, name, segments);
    }
    forall segments | Fits(m, one, name, segments)
      ensures exists more :: Fits(m, two, name, more)
    {
      var more := DoubleAt(m, before, after, name, segments);
    }
    MatchMeans(m, two, name);
    MatchMeans(m, one, name);
  }

  lemma {:induction false} MergeAt(m: (string, string) -> bool, before: seq<string>, after: seq<string>,
                                   name: seq<string>, segments: seq<seq<string>>) returns (fewer: seq<seq<string>>)
    requires Fits(m, before + ["**", "**"] + after, name, segments)
    ensures Fits(m, before + ["**"] + after, name, fewer)
  {
    var two, one := before + ["**", "**"] + after, before + ["**"] + after;
    if before == [] {
      assert two[1..] == one;
      FitsMerge(m, two, name, segments);
      fewer := [segments[0] + segments[1]] + segments[2..];
    } else {
      assert two[1..] == before[1..] + ["**", "**"] + after && one[1..] == before[1..] + ["**"] + after;
      FitsTail(m, two, name, segments);
      var rest := MergeAt(m, before[1..], after, Concat(segments[1..]), segments[1..]);
      FitsPrepend(m, one, Concat(segments[1..]), rest, segments[0]);
      fewer := [segments[0]] + rest;
    }
  }

  lemma {:induction false} DoubleAt(m: (string, string) -> bool, before: seq<string>, after: seq<string>,
                                    name: seq<string>, segments: seq<seq<string>>) returns (more: seq<seq<string>>)
    requires Fits(m, before + ["**"] + after, name, segments)
    ensures Fits(m, before + ["**", "**"] + after, name, more)
  {
    var two, one := before + ["**", "**"] + after, before + ["**"] + after;
    if before == [] {
      assert two[1..] == one;
      FitsDouble(m, two, name, segments);
      more := [[]] + segments;
    } else {
      assert two[1..] == before[1..] + ["**", "**"] + after && one[1..] == before[1..] + ["**"] + after;
      FitsTail(m, one, name, segments);
      var rest := DoubleAt(m, before[1..], after, Concat(segments[1..]), segments[1..]);
      FitsPrepend(m, two, Concat(segments[1..]), rest, segments[0]);
      more := [segments[0]] + rest;
    }
  }

  // ----- rules -------------------------------------------------------------------------------

  datatype Rule = Rule(base: string, pattern: string, negated: bool, directoryOnly: bool, hasSlash: bool)

  /** Without leading and trailing slashes. */
  function Trim(name: string): string
    decreases |name|
  {
    if name == "" then ""
    else if name[0] == '/' then Trim(name[1..])
    else if name[|name| - 1] == '/' then Trim(name[..|name| - 1])
    else name
  }

  function RelativeTo(base: string, name: string): Option<string> {
    if base == "" then Some(name)
    else if name == base then Some("")
    else if base + "/" <= name then Some(name[|base| + 1..])
    else None
  }

  /** The remainder is what follows the rule's base directory. */
  lemma RelativeMeans(base: string, name: string, rel: string)
    requires rel != ""
    ensures RelativeTo(base, name) == Some(rel) <==> name == if base == "" then rel else base + "/" + rel
  {
    if base != "" && name == base + "/" + rel {
      assert base + "/" <= name && name[|base| + 1..] == rel;
    }
  }

  predicate MatchesOne(m: (string, string) -> bool, r: Rule, rel: string) {
    if !r.hasSlash then m(r.pattern, Split(rel)[|Split(rel)| - 1])
    else GlobMatch(m, Split(r.pattern), Split(rel))
  }

  /** Some cut of the name fits the pattern. */
  ghost predicate HasCut(m: (string, string) -> bool, pattern: seq<string>, name: seq<string>) {
    exists segments :: Fits(m, pattern, name, segments)
  }

  /** A pattern without a slash is matched against the last component alone, any other against all. */
  lemma MatchesOneMeans(m: (string, string) -> bool, r: Rule, rel: string)
    ensures !r.hasSlash ==>
              (MatchesOne(m, r, rel) <==> exists last :: LastPart(rel, last) && m(r.pattern, last))
    ensures r.hasSlash ==>
              (MatchesOne(m, r, rel) <==> HasCut(m, Split(r.pattern), Split(rel)))
  {
    if r.hasSlash {
      MatchMeans(m, Split(r.pattern), Split(rel));
    } else {
      LastPartIs(rel);
      assert LastPart(rel, Split(rel)[|Split(rel)| - 1]);
    }
  }

  lemma {:induction false} JoinLast(parts: seq<string>)
    requires |parts| > 1
    ensures Join(parts) == Join(parts[..|parts| - 1]) + "/" + parts[|parts| - 1]
  {
    if |parts| > 2 {
      JoinLast(parts[1..]);
      assert parts[1..][..|parts| - 2] == parts[..|parts| - 1][1..];
    } else {
      assert parts[1..] == [parts[1]];
      assert parts[..1] == [parts[0]];
    }
  }

  lemma LastPartIs(rel: string)
    ensures forall last :: LastPart(rel, last) <==> last == Split(rel)[|Split(rel)| - 1]
  {
    SplitParts(rel);
    var parts := Split(rel);
    var n := |parts| - 1;
    if n > 0 {
      JoinLast(parts);
      assert rel == Join(parts[..n]) + "/" + parts[n];
    }
    assert LastPart(rel, parts[n]);
    forall last | LastPart(rel, last)
      ensures last == parts[n]
    {
      SplitPart(last);
      if rel != last {
        var directory :| rel == directory + "/" + last;
        SplitAppend(directory, last);
      }
    }
  }

  /** rel ends with this component: nothing but a directory and a slash comes before it. */
  ghost predicate LastPart(rel: string, last: string) {
    NoSlash(last) && (rel == last || exists directory :: rel == directory + "/" + last)
  }

  /** How many leading components of a name a directory rule may match: not the last one of a file. */
  function Candidates(rel: string, isDir: bool): nat {
    if isDir then |Split(rel)| else |Split(rel)| - 1
  }

  /** When a rule applies to a path below its base: a directory rule applies through the path
      itself, if it is a directory, or through any directory above it. */
  predicate AppliesBelow(m: (string, string) -> bool, r: Rule, rel: string, isDir: bool) {
    if !r.directoryOnly then MatchesOne(m, r, rel)
    else exists i :: 1 <= i <= Candidates(rel, isDir) && MatchesOne(m, r, Join(Split(rel)[..i]))
  }

  predicate Applies(m: (string, string) -> bool, r: Rule, name: string, isDir: bool) {
    var rel := RelativeTo(r.base, Trim(name));
    rel.Some? && rel.value != "" && AppliesBelow(m, r, rel.value, isDir)
  }

  method RuleMatches(m: (string, string) -> bool, r: Rule, name: string, isDir: bool) returns (matched: bool)
    ensures matched <==> Applies(m, r, name, isDir)
  {
    var rel := RelativeTo(r.base, Trim(name));
    if rel.None? || rel.value == "" {
      return false;
    }
    if !r.directoryOnly {
      return MatchesOne(m, r, rel.value);
    }
    var parts := Split(rel.value);
    var limit := |parts|;
    if !isDir {
      limit := limit - 1;
    }
    var i := 1;
    while i <= limit
      invariant 1 <= i
      invariant forall k :: 1 <= k < i && k <= limit ==> !MatchesOne(m, r, Join(parts[..k]))
    {
      if MatchesOne(m, r, Join(parts[..i])) {
        return true;
      }
      i := i + 1;
    }
    return false;
  }

  lemma {:induction false} SplitAppend(a: string, b: string)
    ensures Split(a + "/" + b) == Split(a) + Split(b)
  {
    var s := a + "/" + b;
    if a == "" {
      assert s[1..] == b;
    } else {
      assert s[1..] == a[1..] + "/" + b;
      SplitAppend(a[1..], b);
    }
  }

  /** The directory is the path itself, or one above it. */
  ghost predicate OnPath(rel: string, directory: string, isDir: bool) {
    (directory == rel && isDir) || exists below :: rel == directory + "/" + below
  }

  lemma {:induction false} JoinSplits(parts: seq<string>, i: nat)
    requires 0 < i < |parts|
    ensures Join(parts) == Join(parts[..i]) + "/" + Join(parts[i..])
  {
    if i > 1 {
      JoinSplits(parts[1..], i - 1);
      assert parts[1..][..i - 1] == parts[..i][1..] && parts[1..][i - 1..] == parts[i..];
    } else {
      assert parts[..1] == [parts[0]];
    }
  }

  lemma LeadingIsOnPath(rel: string, isDir: bool, i: nat)
    requires 1 <= i <= Candidates(rel, isDir)
    ensures OnPath(rel, Join(Split(rel)[..i]), isDir)
  {
    SplitParts(rel);
    if i < |Split(rel)| {
      JoinSplits(Split(rel), i);
    } else {
      assert Split(rel)[..i] == Split(rel);
    }
  }

  lemma OnPathIsLeading(rel: string, directory: string, isDir: bool) returns (i: nat)
    requires OnPath(rel, directory, isDir)
    ensures 1 <= i <= Candidates(rel, isDir) && Join(Split(rel)[..i]) == directory
  {
    SplitParts(rel);
    SplitParts(directory);
    if directory == rel && isDir {
      i := |Split(rel)|;
      assert Split(rel)[..i] == Split(rel);
    } else {
      var below :| rel == directory + "/" + below;
      SplitAppend(directory, below);
      i := |Split(directory)|;
      assert Split(rel)[..i] == Split(directory);
    }
  }

  /** A directory rule applies exactly through the path itself, if it is a directory, or one above it. */
  lemma DirectoryRuleMeans(m: (string, string) -> bool, r: Rule, rel: string, isDir: bool)
    requires r.directoryOnly
    ensures AppliesBelow(m, r, rel, isDir)
            <==> exists directory :: OnPath(rel, directory, isDir) && MatchesOne(m, r, directory)
  {
    if AppliesBelow(m, r, rel, isDir) {
      var i :| 1 <= i <= Candidates(rel, isDir) && MatchesOne(m, r, Join(Split(rel)[..i]));
      LeadingIsOnPath(rel, isDir, i);
    }
    if directory :| OnPath(rel, directory, isDir) && MatchesOne(m, r, directory) {
      var i := OnPathIsLeading(rel, directory, isDir);
      assert MatchesOne(m, r, Join(Split(rel)[..i]));
    }
  }

  predicate AllSlashes(s: string) {
    forall i :: 0 <= i < |s| ==> s[i] == '/'
  }

  /** Trimming takes away exactly the slashes at both ends. */
  lemma {:induction false} TrimMeans(name: string) returns (before: string, after: string)
    ensures name == before + Trim(name) + after && AllSlashes(before) && AllSlashes(after)
    ensures Trim(name) != "" ==> Trim(name)[0] != '/' && Trim(name)[|Trim(name)| - 1] != '/'
    decreases |name|
  {
    before, after := "", "";
    if name != "" && name[0] == '/' {
      before, after := TrimMeans(name[1..]);
      before := "/" + before;
    } else if name != "" && name[|name| - 1] == '/' {
      before, after := TrimMeans(name[..|name| - 1]);
      after := after + "/";
    }
  }

  /** A directory rule that applies to a directory applies to everything below it. */
  lemma DirectoryRuleCovers(m: (string, string) -> bool, r: Rule, directory: string, below: string, isDir: bool)
    requires r.directoryOnly && Trim(directory) == directory && Trim(directory + "/" + below) == directory + "/" + below
    requires Applies(m, r, directory, true)
    ensures Applies(m, r, directory + "/" + below, isDir)
  {
    var rel := RelativeTo(r.base, directory).value;
    RelativeMeans(r.base, directory, rel);
    var longer := rel + "/" + below;
    assert directory + "/" + below == if r.base == "" then longer else r.base + "/" + longer;
    RelativeMeans(r.base, directory + "/" + below, longer);
    SplitAppend(rel, below);
    var i :| 1 <= i <= |Split(rel)| && MatchesOne(m, r, Join(Split(rel)[..i]));
    assert Split(longer)[..i] == Split(rel)[..i];
  }

  /** Rule k applies and no later one does. */
  predicate IsLast(m: (string, string) -> bool, rules: seq<Rule>, name: string, isDir: bool, k: nat)
    requires k < |rules|
  {
    Applies(m, rules[k], name, isDir) && forall j :: k < j < |rules| ==> !Applies(m, rules[j], name, isDir)
  }

  /** last is the last of the first n rules to apply, or -1. */
  ghost predicate LastAmong(m: (string, string) -> bool, rules: seq<Rule>, name: string, isDir: bool, n: nat, last: int)
    requires n <= |rules|
  {
    && -1 <= last < n
    && (forall j :: last < j < n ==> !Applies(m, rules[j], name, isDir))
    && (last >= 0 ==> Applies(m, rules[last], name, isDir))
  }

  lemma LastDecides(m: (string, string) -> bool, rules: seq<Rule>, name: string, isDir: bool, last: int)
    requires LastAmong(m, rules, name, isDir, |rules|, last)
    ensures (last >= 0 && !rules[last].negated)
            <==> exists k :: 0 <= k < |rules| && IsLast(m, rules, name, isDir, k) && !rules[k].negated
  {
    if last >= 0 {
      assert IsLast(m, rules, name, isDir, last);
    }
  }

  /** The last rule that applies decides; without one nothing is ignored. */
  method IgnoredByRules(m: (string, string) -> bool, rules: seq<Rule>, name: string, isDir: bool)
    returns (ignored: bool)
    ensures ignored <==> exists k :: 0 <= k < |rules| && IsLast(m, rules, name, isDir, k) && !rules[k].negated
  {
    ignored := false;
    ghost var last := -1;
    for i := 0 to |rules|
      invariant LastAmong(m, rules, name, isDir, i, last)
      invariant ignored <==> last >= 0 && !rules[last].negated
    {
      var matched := RuleMatches(m, rules[i], name, isDir);
      if matched {
        ignored := !rules[i].negated;
        last := i;
      }
    }
    LastDecides(m, rules, name, isDir, last);
  }
}
