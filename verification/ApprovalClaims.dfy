/** Approval claims: normalization and the binding of an approval to its registered
    challenge (internal/approval/token.go). */
module ApprovalClaims {
  import opened Basics
  import opened Paths

  datatype Target = Target(path: string, before: string, after: string)

  /** expiresAt is a point in time; zero stands for the zero time. */
  datatype Claims = Claims(
    approvalId: string, challengeId: string, approver: string, sessionId: string, operation: string,
    targets: seq<Target>, path: string, contentSha: string, expectedHash: string, reviewSha: string, expiresAt: int)

  datatype Scope = Scope(sessionId: string, operation: string, targets: seq<Target>,
                         path: string, contentSha: string, expectedHash: string, reviewSha: string)

  const MAX_TARGETS := 20

  predicate HexDigit(c: char) {
    '0' <= c <= '9' || 'a' <= c <= 'f'
  }

  predicate ValidSha(value: string) {
    |value| == 64 && forall i :: 0 <= i < 64 ==> HexDigit(value[i])
  }

  predicate ValidApprover(value: string) {
    && 0 < |value| <= 256
    && (exists i :: 0 <= i < |value| && value[i] != ' ')
    && (forall i :: 0 <= i < |value| ==> value[i] >= ' ' && value[i] != 0x7f as char)
  }

  /** The target loop: every path is normalized and new, every hash well formed. */
  function NormalizeTargets(targets: seq<Target>, seen: set<string>): Option<seq<Target>>
    decreases |targets|
  {
    if targets == [] then Some([])
    else
      var t := targets[0];
      match NormalizePath(t.path)
      case None => None
      case Some(path) =>
        if path in seen || !ValidSha(t.after) || (t.before != "" && !ValidSha(t.before)) then None
        else
          match NormalizeTargets(targets[1..], seen + {path})
          case None => None
          case Some(rest) => Some([t.(path := path)] + rest)
  }

  function NormalizeClaims(c: Claims, requireApprover: bool): Option<Claims> {
    if c.approvalId == "" || c.sessionId == "" || c.operation == "" || c.expiresAt == 0 then None
    else if (requireApprover || c.approver != "") && !ValidApprover(c.approver) then None
    else if c.challengeId != "" && c.challengeId != c.approvalId then None
    else if (if c.reviewSha == "" then c.operation != "write_file" else !ValidSha(c.reviewSha)) then None
    else if c.targets == [] && (c.path == "" || c.contentSha == "") then None
    else
      var targets := if c.targets == [] then [Target(c.path, c.expectedHash, c.contentSha)] else c.targets;
      if |targets| > MAX_TARGETS then None
      else
        match NormalizeTargets(targets, {})
        case None => None
        case Some(normal) =>
          var base := c.(challengeId := c.approvalId, targets := normal);
          Some(if |normal| == 1
               then base.(path := normal[0].path, expectedHash := normal[0].before, contentSha := normal[0].after)
               else base.(path := "", expectedHash := "", contentSha := ""))
  }

  /** Targets after normalization: as many as before, clean, distinct, same hashes. */
  lemma {:induction false} NormalTargets(targets: seq<Target>, seen: set<string>)
    requires NormalizeTargets(targets, seen).Some?
    ensures var n := NormalizeTargets(targets, seen).value;
            && |n| == |targets|
            && (forall i :: 0 <= i < |n| ==>
                  && NormalizePath(targets[i].path) == Some(n[i].path) && n[i].path !in seen
                  && n[i].before == targets[i].before && n[i].after == targets[i].after)
            && (forall i, j :: 0 <= i < j < |n| ==> n[i].path != n[j].path)
    decreases |targets|
  {
    if targets != [] {
      var path := NormalizePath(targets[0].path).value;
      NormalTargets(targets[1..], seen + {path});
      var rest := NormalizeTargets(targets[1..], seen + {path}).value;
      var n := NormalizeTargets(targets, seen).value;
      assert n[1..] == rest;
      forall i, j | 0 <= i < j < |n|
        ensures n[i].path != n[j].path
      {
        assert n[j] == rest[j - 1];
        if i > 0 {
          assert n[i] == rest[i - 1];
        }
      }
      forall i | 0 <= i < |n|
        ensures NormalizePath(targets[i].path) == Some(n[i].path) && n[i].path !in seen
                && n[i].before == targets[i].before && n[i].after == targets[i].after
      {
        if i > 0 {
          assert n[i] == rest[i - 1] && targets[i] == targets[1..][i - 1];
        }
      }
    }
  }

  lemma {:induction false} NormalizeTargetsIdempotent(targets: seq<Target>, seen: set<string>)
    requires NormalizeTargets(targets, seen).Some?
    ensures NormalizeTargets(NormalizeTargets(targets, seen).value, seen) == NormalizeTargets(targets, seen)
    decreases |targets|
  {
    if targets != [] {
      var path := NormalizePath(targets[0].path).value;
      NormalizePathIdempotent(targets[0].path);
      NormalizeTargetsIdempotent(targets[1..], seen + {path});
      var n := NormalizeTargets(targets, seen).value;
      assert n[1..] == NormalizeTargets(targets[1..], seen + {path}).value;
    }
  }

  predicate CleanTarget(t: Target) {
    NormalizePath(t.path) == Some(t.path) && ValidSha(t.after) && (t.before != "" ==> ValidSha(t.before))
  }

  predicate CleanTargets(targets: seq<Target>, seen: set<string>) {
    && (forall i :: 0 <= i < |targets| ==> CleanTarget(targets[i]) && targets[i].path !in seen)
    && (forall i, j :: 0 <= i < j < |targets| ==> targets[i].path != targets[j].path)
  }

  /** The requirements of a normal claim, written without normalization. */
  predicate Normal(c: Claims, requireApprover: bool) {
    && c.approvalId != "" && c.challengeId == c.approvalId && c.sessionId != "" && c.operation != "" && c.expiresAt != 0
    && (requireApprover || c.approver != "" ==> ValidApprover(c.approver))
    && (if c.reviewSha == "" then c.operation == "write_file" else ValidSha(c.reviewSha))
    && 0 < |c.targets| <= MAX_TARGETS && CleanTargets(c.targets, {})
    && (if |c.targets| == 1
        then c.path == c.targets[0].path && c.expectedHash == c.targets[0].before && c.contentSha == c.targets[0].after
        else c.path == "" && c.expectedHash == "" && c.contentSha == "")
  }

  lemma {:induction false} CleanTargetsIff(targets: seq<Target>, seen: set<string>)
    ensures NormalizeTargets(targets, seen) == Some(targets) <==> CleanTargets(targets, seen)
    decreases |targets|
  {
    if targets != [] {
      var t, rest := targets[0], targets[1..];
      CleanTargetsIff(rest, seen + {t.path});
      assert [t] + rest == targets;
      if CleanTargets(rest, seen + {t.path}) && CleanTarget(t) && t.path !in seen {
        forall i | 0 <= i < |targets|
          ensures CleanTarget(targets[i]) && targets[i].path !in seen
          ensures i > 0 ==> targets[i].path != t.path
        {
          assert i > 0 ==> targets[i] == rest[i - 1];
        }
        forall i, j | 0 <= i < j < |targets|
          ensures targets[i].path != targets[j].path
        {
          assert targets[j] == rest[j - 1] && (i > 0 ==> targets[i] == rest[i - 1]);
        }
      }
      if NormalizeTargets(targets, seen) == Some(targets) {
        NormalTargets(targets, seen);
        assert NormalizeTargets(targets, seen).value[1..] == rest;
      }
    }
  }

  /** A claim is its own normal form exactly when it meets these requirements. */
  lemma NormalIff(c: Claims, requireApprover: bool)
    ensures NormalizeClaims(c, requireApprover) == Some(c) <==> Normal(c, requireApprover)
  {
    CleanTargetsIff(c.targets, {});
    if NormalizeClaims(c, requireApprover).Some? {
      NormalTargets(if c.targets == [] then [Target(c.path, c.expectedHash, c.contentSha)] else c.targets, {});
    }
  }

  /** Normalizing an already normalized claim gives the same claim. */
  lemma NormalizeClaimsIdempotent(c: Claims, requireApprover: bool)
    requires NormalizeClaims(c, requireApprover).Some?
    ensures NormalizeClaims(NormalizeClaims(c, requireApprover).value, requireApprover)
            == NormalizeClaims(c, requireApprover)
  {
    var targets := if c.targets == [] then [Target(c.path, c.expectedHash, c.contentSha)] else c.targets;
    NormalTargets(targets, {});
    NormalizeTargetsIdempotent(targets, {});
  }

  /** Every normalized claim meets the requirements of a normal one. */
  lemma NormalizedIsNormal(c: Claims, requireApprover: bool)
    requires NormalizeClaims(c, requireApprover).Some?
    ensures Normal(NormalizeClaims(c, requireApprover).value, requireApprover)
  {
    NormalizeClaimsIdempotent(c, requireApprover);
    NormalIff(NormalizeClaims(c, requireApprover).value, requireApprover);
  }

  /** The targets given by a list, or by the single-target fields. */
  function Given(targets: seq<Target>, path: string, before: string, after: string): seq<Target> {
    if targets == [] then [Target(path, before, after)] else targets
  }

  /** The same targets with normalized paths, all different, and well-formed hashes. */
  predicate Normalizes(given: seq<Target>, normal: seq<Target>) {
    && |normal| == |given|
    && (forall i :: 0 <= i < |given| ==>
          && NormalizePath(given[i].path) == Some(normal[i].path)
          && normal[i].before == given[i].before && normal[i].after == given[i].after
          && ValidSha(given[i].after) && (given[i].before != "" ==> ValidSha(given[i].before)))
    && (forall i, j :: 0 <= i < j < |normal| ==> normal[i].path != normal[j].path)
  }

  lemma {:induction false} NormalizesNext(given: seq<Target>, normal: seq<Target>, seen: set<string>)
    ensures NormalizeTargets(given, seen) == Some(normal)
            <==> Normalizes(given, normal) && forall i :: 0 <= i < |normal| ==> normal[i].path !in seen
    decreases |given|
  {
    if NormalizeTargets(given, seen).Some? {
      NormalTargets(given, seen);
      CleanHashes(given, seen);
    }
    if given != [] && normal != [] && NormalizePath(given[0].path).Some? {
      var path := NormalizePath(given[0].path).value;
      NormalizesNext(given[1..], normal[1..], seen + {path});
      if Normalizes(given, normal) && forall i :: 0 <= i < |normal| ==> normal[i].path !in seen {
        assert normal == [normal[0]] + normal[1..];
        assert Normalizes(given[1..], normal[1..]);
      }
    }
    if NormalizeTargets(given, seen).Some? && Normalizes(given, normal) {
      var n := NormalizeTargets(given, seen).value;
      assert forall i :: 0 <= i < |n| ==> n[i] == normal[i];
    }
  }

  lemma {:induction false} CleanHashes(given: seq<Target>, seen: set<string>)
    requires NormalizeTargets(given, seen).Some?
    ensures forall i :: 0 <= i < |given| ==>
              ValidSha(given[i].after) && (given[i].before != "" ==> ValidSha(given[i].before))
    decreases |given|
  {
    if given != [] {
      CleanHashes(given[1..], seen + {NormalizePath(given[0].path).value});
    }
  }

  /** What normalization makes of any claim: the same claim with the challenge named, the targets normalized
      and the single-target fields in agreement, provided that is a normal claim. */
  lemma NormalFormIff(c: Claims, requireApprover: bool, n: Claims)
    ensures NormalizeClaims(c, requireApprover) == Some(n) <==>
              && Normal(n, requireApprover)
              && n.approvalId == c.approvalId && n.approver == c.approver && n.sessionId == c.sessionId
              && n.operation == c.operation && n.reviewSha == c.reviewSha && n.expiresAt == c.expiresAt
              && (c.challengeId == "" || c.challengeId == c.approvalId)
              && (c.targets == [] ==> c.path != "" && c.contentSha != "")
              && Normalizes(Given(c.targets, c.path, c.expectedHash, c.contentSha), n.targets)
  {
    NormalizesNext(Given(c.targets, c.path, c.expectedHash, c.contentSha), n.targets, {});
    if NormalizeClaims(c, requireApprover) == Some(n) {
      NormalizedIsNormal(c, requireApprover);
    }
  }

  /** The fields an approval shares with the challenge it answers. */
  predicate SameBinding(a: Claims, b: Claims) {
    && a.challengeId == b.challengeId && a.sessionId == b.sessionId && a.operation == b.operation
    && a.reviewSha == b.reviewSha && a.targets == b.targets
  }

  /** validateChallengeBinding: the registered payload against the approved claims. */
  predicate ChallengeBinding(registered: Claims, approved: Claims) {
    var r := NormalizeClaims(registered, false);
    r.Some? && SameBinding(r.value, approved) && approved.expiresAt <= r.value.expiresAt
  }

  /** normalizeScope: the targets a verifier expects. */
  function NormalizeScope(s: Scope): Option<seq<Target>> {
    match NormalizeClaims(Claims("scope", "scope", "", s.sessionId, s.operation, s.targets, s.path, s.contentSha,
                                 s.expectedHash, s.reviewSha, 1), false)
    case None => None
    case Some(c) => Some(c.targets)
  }

  const MAX_LIFETIME := 300_000_000_000

  /** The checks of authenticate after the signature: claims, expiry and scope. */
  function Authenticate(payload: Claims, scope: Scope, now: int): Option<Claims> {
    match NormalizeClaims(payload, true)
    case None => None
    case Some(c) =>
      if c.expiresAt <= now || c.expiresAt > now + MAX_LIFETIME then None
      else
        var targets := NormalizeScope(scope);
        if targets.None? || c.sessionId != scope.sessionId || c.operation != scope.operation
           || c.reviewSha != scope.reviewSha || c.targets != targets.value
        then None
        else Some(c)
  }

  /** The claims are those that the verifier's scope asks for. */
  predicate InScope(c: Claims, scope: Scope) {
    && c.sessionId == scope.sessionId && c.operation == scope.operation && c.reviewSha == scope.reviewSha
    && Normalizes(Given(scope.targets, scope.path, scope.expectedHash, scope.contentSha), c.targets)
  }

  /** A signed token is good exactly when its claims normalize with an approver, it has not expired and
      does not live for more than five minutes, and it is for this session, operation, review digest and
      exactly these targets. */
  lemma AuthenticateIff(payload: Claims, scope: Scope, now: int, c: Claims)
    ensures Authenticate(payload, scope, now) == Some(c) <==>
              && NormalizeClaims(payload, true) == Some(c)
              && now < c.expiresAt <= now + 5 * 60 * 1_000_000_000
              && InScope(c, scope)
  {
    if NormalizeClaims(payload, true) == Some(c) {
      var wanted := Claims("scope", "scope", "", scope.sessionId, scope.operation, scope.targets, scope.path,
                           scope.contentSha, scope.expectedHash, scope.reviewSha, 1);
      NormalizedIsNormal(payload, true);
      NormalizesNext(Given(scope.targets, scope.path, scope.expectedHash, scope.contentSha), c.targets, {});
      if NormalizeClaims(wanted, false).Some? {
        var n := NormalizeClaims(wanted, false).value;
        NormalFormIff(wanted, false, n);
        NormalizesNext(Given(scope.targets, scope.path, scope.expectedHash, scope.contentSha), n.targets, {});
      }
    }
  }
}
