/** Slash-separated names: splitting, joining, lexical cleaning, and the relative
    paths a capability may name (internal/capability/token.go). */
module Paths {
  import opened Basics

  /** The parts of s between slashes; there is always at least one. */
  function Split(s: string): (parts: seq<string>)
    ensures parts != []
  {
    if s == "" then [""]
    else
      var rest := Split(s[1..]);
      if s[0] == '/' then [""] + rest else [[s[0]] + rest[0]] + rest[1..]
  }

  function Join(parts: seq<string>): string {
    if parts == [] then ""
    else if |parts| == 1 then parts[0]
    else parts[0] + "/" + Join(parts[1..])
  }

  /** A single path component. */
  predicate NoSlash(part: string) {
    '/' !in part
  }

  ghost predicate AllNoSlash(parts: seq<string>) {
    forall i :: 0 <= i < |parts| ==> NoSlash(parts[i])
  }

  lemma {:induction false} SplitParts(s: string)
    ensures AllNoSlash(Split(s)) && Join(Split(s)) == s
  {
    if s != "" {
      SplitParts(s[1..]);
      var rest := Split(s[1..]);
      var parts := Split(s);
      if s[0] == '/' {
        assert parts[1..] == rest;
        assert Join(parts) == "/" + s[1..];
      } else {
        assert parts[1..] == rest[1..];
        assert Join(parts) == [s[0]] + Join(rest);
      }
    }
  }

  lemma {:induction false} SplitPart(part: string)
    requires NoSlash(part)
    ensures Split(part) == [part]
  {
    if part != "" {
      assert part[0] in part;
      assert forall c :: c in part[1..] ==> c in part;
      SplitPart(part[1..]);
      assert [part[0]] + part[1..] == part;
    }
  }

  lemma {:induction false} SplitAfterPart(part: string, rest: string)
    requires NoSlash(part)
    ensures Split(part + "/" + rest) == [part] + Split(rest)
  {
    var s := part + "/" + rest;
    if part == "" {
      assert s[1..] == rest;
    } else {
      assert part[0] in part;
      assert forall c :: c in part[1..] ==> c in part;
      assert s[1..] == part[1..] + "/" + rest;
      SplitAfterPart(part[1..], rest);
      assert [part[0]] + part[1..] == part;
      assert Split(s[1..])[1..] == Split(rest);
    }
  }

  /** Splitting a joined list gives the list back. */
  lemma {:induction false} SplitJoin(parts: seq<string>)
    requires parts != [] && AllNoSlash(parts)
    ensures Split(Join(parts)) == parts
  {
    if |parts| == 1 {
      SplitPart(parts[0]);
    } else {
      SplitJoin(parts[1..]);
      SplitAfterPart(parts[0], Join(parts[1..]));
    }
  }

  /** One component of a relative path on top of the cleaned ones before it. */
  function CleanStep(stack: seq<string>, part: string): seq<string> {
    if part == "" || part == "." then stack
    else if part == ".." && stack != [] && stack[|stack| - 1] != ".." then stack[..|stack| - 1]
    else stack + [part]
  }

  function CleanParts(stack: seq<string>, parts: seq<string>): seq<string>
    decreases |parts|
  {
    if parts == [] then stack else CleanParts(CleanStep(stack, parts[0]), parts[1..])
  }

  /** The lexical cleaning of a relative path. */
  function Clean(s: string): string {
    var parts := CleanParts([], Split(s));
    if parts == [] then "." else Join(parts)
  }

  /** Cleaned components: proper names, with any ".." in front of everything else. */
  ghost predicate Cleaned(parts: seq<string>) {
    && AllNoSlash(parts)
    && (forall i :: 0 <= i < |parts| ==> parts[i] != "" && parts[i] != ".")
    && (forall i, j :: 0 <= i < j < |parts| && parts[j] == ".." ==> parts[i] == "..")
  }

  lemma {:induction false} CleanPartsCleaned(stack: seq<string>, parts: seq<string>)
    requires Cleaned(stack) && AllNoSlash(parts)
    ensures Cleaned(CleanParts(stack, parts))
    decreases |parts|
  {
    if parts != [] {
      CleanPartsCleaned(CleanStep(stack, parts[0]), parts[1..]);
    }
  }

  lemma {:induction false} CleanPartsStable(stack: seq<string>, parts: seq<string>)
    requires Cleaned(stack + parts)
    ensures CleanParts(stack, parts) == stack + parts
    decreases |parts|
  {
    if parts == [] {
      assert stack + parts == stack;
    } else {
      var all := stack + parts;
      assert all[|stack|] == parts[0];
      if stack != [] {
        assert all[|stack| - 1] == stack[|stack| - 1];
      }
      assert CleanStep(stack, parts[0]) == stack + [parts[0]];
      assert (stack + [parts[0]]) + parts[1..] == all;
      CleanPartsStable(stack + [parts[0]], parts[1..]);
    }
  }

  /** The path a target may have: relative, clean, and inside the workspace. */
  function NormalizePath(raw: string): Option<string> {
    if raw == "" || raw[0] == '/' || '\0' in raw then None
    else
      var clean := Clean(raw);
      if clean == ".." || (|clean| >= 3 && clean[..3] == "../") then None else Some(clean)
  }

  ghost predicate NoNul(parts: seq<string>) {
    forall i :: 0 <= i < |parts| ==> '\0' !in parts[i]
  }

  lemma {:induction false} SplitNoNul(s: string)
    requires '\0' !in s
    ensures NoNul(Split(s))
  {
    if s != "" {
      assert s[0] in s;
      assert forall c :: c in s[1..] ==> c in s;
      SplitNoNul(s[1..]);
    }
  }

  lemma {:induction false} CleanNoNul(stack: seq<string>, parts: seq<string>)
    requires NoNul(stack) && NoNul(parts)
    ensures NoNul(CleanParts(stack, parts))
    decreases |parts|
  {
    if parts != [] {
      CleanNoNul(CleanStep(stack, parts[0]), parts[1..]);
    }
  }

  lemma {:induction false} JoinNoNul(parts: seq<string>)
    requires NoNul(parts)
    ensures '\0' !in Join(parts)
  {
    if |parts| > 1 {
      JoinNoNul(parts[1..]);
    }
  }

  /** The components of a normalized path: none of them leads upwards. */
  lemma NormalizedParts(raw: string) returns (parts: seq<string>)
    requires NormalizePath(raw).Some?
    ensures Cleaned(parts) && NoNul(parts)
    ensures NormalizePath(raw).value == if parts == [] then "." else Join(parts)
    ensures ".." !in parts
  {
    SplitParts(raw);
    SplitNoNul(raw);
    CleanPartsCleaned([], Split(raw));
    CleanNoNul([], Split(raw));
    parts := CleanParts([], Split(raw));
    if parts != [] {
      JoinUpwards(parts);
      UpOnlyInFront(parts);
    }
  }

  lemma UpOnlyInFront(parts: seq<string>)
    requires Cleaned(parts) && parts != [] && parts[0] != ".."
    ensures ".." !in parts
  {
  }

  lemma JoinUpwards(parts: seq<string>)
    requires parts != []
    ensures parts[0] == ".." ==> Join(parts) == ".." || (|Join(parts)| >= 3 && Join(parts)[..3] == "../")
  {
    if |parts| > 1 && parts[0] == ".." {
      assert Join(parts) == "../" + Join(parts[1..]);
    }
  }

  /** Normalizing twice changes nothing more. */
  lemma NormalizePathIdempotent(raw: string)
    requires NormalizePath(raw).Some?
    ensures NormalizePath(NormalizePath(raw).value) == NormalizePath(raw)
  {
    var clean := NormalizePath(raw).value;
    var parts := NormalizedParts(raw);
    if parts == [] {
      SplitPart(".");
      assert Split(".") == ["."];
      assert ["."][1..] == [];
      assert Clean(clean) == ".";
    } else {
      SplitJoin(parts);
      assert [] + parts == parts;
      CleanPartsStable([], parts);
      JoinNoNul(parts);
      assert Clean(clean) == clean;
      assert parts[0][0] in parts[0];
      assert clean[0] == parts[0][0];
    }
  }

  // ----- where a path leads -----------------------------------------------------

  /** One step in a tree of directories; the root is its own parent. */
  function WalkStep(place: seq<string>, part: string): seq<string> {
    if part == "" || part == "." then place
    else if part == ".." then if place == [] then [] else place[..|place| - 1]
    else place + [part]
  }

  /** The place that the parts of a path lead to from a place. */
  function Walk(place: seq<string>, parts: seq<string>): seq<string>
    decreases |parts|
  {
    if parts == [] then place else Walk(WalkStep(place, parts[0]), parts[1..])
  }

  lemma {:induction false} WalkSnoc(place: seq<string>, parts: seq<string>, part: string)
    ensures Walk(place, parts + [part]) == WalkStep(Walk(place, parts), part)
    decreases |parts|
  {
    if parts != [] {
      assert (parts + [part])[1..] == parts[1..] + [part];
      WalkSnoc(WalkStep(place, parts[0]), parts[1..], part);
    } else {
      assert parts + [part] == [part];
      assert [part][1..] == [];
    }
  }

  lemma CleanStepWalks(place: seq<string>, stack: seq<string>, part: string)
    requires Cleaned(stack)
    ensures Walk(place, CleanStep(stack, part)) == WalkStep(Walk(place, stack), part)
  {
    if part != "" && part != "." {
      if part == ".." && stack != [] && stack[|stack| - 1] != ".." {
        var before, last := stack[..|stack| - 1], stack[|stack| - 1];
        assert before + [last] == stack;
        WalkSnoc(place, before, last);
      } else {
        WalkSnoc(place, stack, part);
      }
    }
  }

  /** Cleaning does not change where the parts lead. */
  lemma {:induction false} CleanPartsWalk(place: seq<string>, stack: seq<string>, parts: seq<string>)
    requires Cleaned(stack) && AllNoSlash(parts)
    ensures Walk(place, CleanParts(stack, parts)) == Walk(Walk(place, stack), parts)
    decreases |parts|
  {
    if parts != [] {
      CleanStepWalks(place, stack, parts[0]);
      CleanPartsWalk(place, CleanStep(stack, parts[0]), parts[1..]);
    }
  }

  /** Proper names lead downwards. */
  lemma {:induction false} NamesWalk(place: seq<string>, parts: seq<string>)
    requires Cleaned(parts) && ".." !in parts
    ensures Walk(place, parts) == place + parts
    decreases |parts|
  {
    if parts != [] {
      NamesWalk(place + [parts[0]], parts[1..]);
      assert (place + [parts[0]]) + parts[1..] == place + parts;
    }
  }

  /** A path that begins upwards leaves a place whose names it does not contain. */
  lemma WalkPops(place: seq<string>, parts: seq<string>)
    requires forall i :: 0 <= i < |place| ==> place[i] !in parts
    requires Cleaned(parts) && parts != [] && parts[0] == ".." && place != []
    ensures var end := Walk(place, parts); |end| >= |place| ==> end[|place| - 1] != place[|place| - 1]
  {
    var up := place[..|place| - 1];
    WalkAvoids(up, parts[1..], place[|place| - 1], |place| - 1);
  }

  /** A name that the parts do not contain is not at a depth where it was not before. */
  lemma {:induction false} WalkAvoids(place: seq<string>, parts: seq<string>, name: string, depth: nat)
    requires name !in parts && (depth < |place| ==> place[depth] != name)
    ensures var end := Walk(place, parts); depth < |end| ==> end[depth] != name
    decreases |parts|
  {
    if parts != [] {
      WalkAvoids(WalkStep(place, parts[0]), parts[1..], name, depth);
    }
  }

  /** Parts that lead downwards from every place, to these names below it. */
  ghost predicate LeadsTo(parts: seq<string>, names: seq<string>) {
    forall place :: Walk(place, parts) == place + names
  }

  ghost predicate Names(parts: seq<string>) {
    Cleaned(parts) && ".." !in parts
  }

  /** A path is normalized exactly when it is relative, has no NUL and leads from every place to one below
      it or to the place itself; the result names that one. */
  lemma NormalizePathIff(raw: string, clean: string)
    ensures NormalizePath(raw) == Some(clean) <==>
              && raw != "" && raw[0] != '/' && '\0' !in raw
              && exists names :: Names(names) && LeadsTo(Split(raw), names)
                                 && clean == if names == [] then "." else Join(names)
  {
    SplitParts(raw);
    var parts := CleanParts([], Split(raw));
    CleanPartsCleaned([], Split(raw));
    forall place
      ensures Walk(place, parts) == Walk(place, Split(raw))
    {
      CleanPartsWalk(place, [], Split(raw));
    }
    if raw != "" && raw[0] != '/' && '\0' !in raw {
      UpwardsShows(parts);
      if ".." !in parts {
        forall place
          ensures Walk(place, Split(raw)) == place + parts
        {
          NamesWalk(place, parts);
        }
        assert Names(parts) && LeadsTo(Split(raw), parts);
      }
      forall names | Names(names) && LeadsTo(Split(raw), names)
        ensures parts == names
      {
        OnlyThese(parts, names);
      }
    }
  }

  lemma SplitsUpwards(clean: string)
    requires clean == ".." || (|clean| >= 3 && clean[..3] == "../")
    ensures Split(clean)[0] == ".."
  {
    if clean == ".." {
      SplitPart(clean);
    } else {
      SlashAfter(clean);
      SplitAfterPart("..", clean[3..]);
    }
  }

  lemma SlashAfter(clean: string)
    requires |clean| >= 3 && clean[..3] == "../"
    ensures clean == ".." + "/" + clean[3..]
  {
    assert clean == clean[..3] + clean[3..];
    assert ".." + "/" == "../";
  }

  /** The result begins with ".." exactly when one of the parts is "..". */
  lemma UpwardsShows(parts: seq<string>)
    requires Cleaned(parts)
    ensures var clean := if parts == [] then "." else Join(parts);
            ".." in parts <==> clean == ".." || (|clean| >= 3 && clean[..3] == "../")
  {
    if parts != [] {
      JoinUpwards(parts);
      if parts[0] != ".." {
        UpOnlyInFront(parts);
        if Join(parts) == ".." || (|Join(parts)| >= 3 && Join(parts)[..3] == "../") {
          SplitsUpwards(Join(parts));
          SplitJoin(parts);
        }
      }
    }
  }

  lemma {:induction false} UnusedName(parts: seq<string>) returns (name: string)
    ensures forall i :: 0 <= i < |parts| ==> |parts[i]| < |name|
  {
    name := "x";
    if parts != [] {
      var rest := UnusedName(parts[1..]);
      name := rest + parts[0] + "x";
    }
  }

  lemma NeverUpwards(parts: seq<string>, names: seq<string>)
    requires Cleaned(parts) && LeadsTo(parts, names)
    ensures parts != [] ==> parts[0] != ".."
  {
    if parts != [] && parts[0] == ".." {
      var name := UnusedName(parts);
      var place := [name];
      assert Walk(place, parts)[0] == place[0];
      WalkPops(place, parts);
    }
  }

  lemma OnlyThese(parts: seq<string>, names: seq<string>)
    requires Cleaned(parts) && LeadsTo(parts, names)
    ensures parts == names
  {
    NeverUpwards(parts, names);
    if parts != [] {
      UpOnlyInFront(parts);
    }
    NamesWalk([], parts);
    assert Walk([], parts) == [] + names == names && [] + parts == parts;
  }
}
