/** The batch edit transaction: preflight of up to twenty files, ordered writes, and the
    rollback after a failure (internal/fileworker/worker.go).  The file system is a map whose
    operations may fail at any time; a failed write may have taken effect. */
module FileWorker {
  import opened Basics

  type Bytes = seq<int>

  /** The digest of a content; two contents have the same digest only if they are equal. */
  datatype Digest = Digest(content: Bytes)

  const MAX_BATCH_FILES := 20

  /** 64 MiB, the most a checksum reads and a text may have before and after an edit. */
  const MAX_TEXT := 0x400_0000

  /** One file of a request; `apply` is decoding, editing and encoding its content. */
  datatype EditFile = EditFile(path: string, apply: Bytes -> Option<Bytes>)

  datatype Target = Target(path: string, before: Digest, after: Digest)

  datatype Plan = Plan(path: string, original: Bytes, updated: Bytes) {
    function Before(): Digest { Digest(original) }
    function After(): Digest { Digest(updated) }
    function AsTarget(): Target { Target(path, Before(), After()) }
  }

  datatype Response =
    | Rejected                        // preflight failed
    | Preview                         // nothing was to be applied
    | TargetsChanged                  // the approved targets are not the planned ones
    | Applied
    | RolledBack(restored: bool)      // "completed writes were rolled back"
    | RollbackIncomplete

  /** At most `failures` of the operations to come fail, no one knows which; no one else writes. */
  class FileSystem {
    var failures: nat
    var files: map<string, Bytes>

    constructor (failures: nat, files: map<string, Bytes>)
      ensures this.failures == failures && this.files == files
    {
      this.failures := failures;
      this.files := files;
    }

    /** Whether the operation under way fails here. */
    method Fails() returns (broken: bool)
      modifies `failures
      ensures old(failures) == failures + (if broken then 1 else 0)
    {
      broken := *;
      if failures == 0 {
        broken := false;
      }
      if broken {
        failures := failures - 1;
      }
    }

    method ReadFile(path: string, max: int) returns (r: Option<Bytes>)
      modifies `failures
      ensures failures <= old(failures) <= failures + 1
      ensures r == if failures == old(failures) && path in files && |files[path]| <= max
                   then Some(files[path]) else None
    {
      var broken := Fails();
      if broken || path !in files || |files[path]| > max {
        return None;
      }
      r := Some(files[path]);
    }

    method Checksum(path: string) returns (r: Option<Digest>)
      modifies `failures
      ensures failures <= old(failures) <= failures + 1
      ensures r == if failures == old(failures) && path in files && |files[path]| <= MAX_TEXT
                   then Some(Digest(files[path])) else None
    {
      var bytes := ReadFile(path, MAX_TEXT);
      r := if bytes.None? then None else Some(Digest(bytes.value));
    }

    /** Without an expected digest a file is created and none replaced, with one the file that has it
        is replaced.  The rename may succeed and a later step still report an error. */
    method WriteFile(path: string, data: Bytes, expected: Option<Digest>, max: int) returns (ok: bool)
      modifies this
      ensures failures <= old(failures) <= failures + 1
      ensures ok <==> failures == old(failures) && |data| <= max && Expected(old(files), path, expected)
      ensures ok ==> files == old(files)[path := data]
      ensures !ok ==> files == old(files) || (|data| <= max && Expected(old(files), path, expected)
                                              && failures < old(failures) && files == old(files)[path := data])
    {
      if |data| > max {
        return false;
      }
      var broken := Fails();
      if broken || (path in files && expected.None?) {
        return false;
      }
      if expected.Some? {
        var got := Checksum(path);
        if got != expected {
          return false;
        }
      }
      files := files[path := data];
      broken := Fails();
      ok := !broken;
    }
  }

  /** The target is as the caller of a write expects it. */
  predicate Expected(files: map<string, Bytes>, path: string, expected: Option<Digest>) {
    match expected
    case None => path !in files
    case Some(digest) => path in files && |files[path]| <= MAX_TEXT && Digest(files[path]) == digest
  }

  // ----- plans ------------------------------------------------------------------------

  function TargetsOf(plans: seq<Plan>): seq<Target> {
    seq(|plans|, i requires 0 <= i < |plans| => plans[i].AsTarget())
  }

  ghost predicate DistinctPaths(plans: seq<Plan>) {
    forall i, j :: 0 <= i < j < |plans| ==> plans[i].path != plans[j].path
  }

  /** The plans were made from these files. */
  ghost predicate PlannedFrom(plans: seq<Plan>, files: map<string, Bytes>) {
    && DistinctPaths(plans)
    && forall i :: 0 <= i < |plans| ==> plans[i].path in files && files[plans[i].path] == plans[i].original
  }

  function InputSize(plans: seq<Plan>): nat {
    if plans == [] then 0 else InputSize(plans[..|plans| - 1]) + |plans[|plans| - 1].original|
  }

  function OutputSize(plans: seq<Plan>): nat {
    if plans == [] then 0 else OutputSize(plans[..|plans| - 1]) + |plans[|plans| - 1].updated|
  }

  /** The plans of a batch, file by file: unique paths, something left of the input budget before
      each file, and both totals within the limit. */
  function PlanFiles(files: seq<EditFile>, disk: map<string, Bytes>, max: int): Option<seq<Plan>> {
    if files == [] then Some([])
    else
      match PlanFiles(files[..|files| - 1], disk, max)
      case None => None
      case Some(plans) => PlanNext(plans, files[|files| - 1], disk, max)
  }

  function PlanNext(plans: seq<Plan>, item: EditFile, disk: map<string, Bytes>, max: int): Option<seq<Plan>> {
    var remaining := max - InputSize(plans);
    if (exists k :: 0 <= k < |plans| && plans[k].path == item.path) || remaining <= 0 then None
    else if item.path !in disk || |disk[item.path]| > remaining || |disk[item.path]| > MAX_TEXT then None
    else
      match item.apply(disk[item.path])
      case None => None
      case Some(updated) =>
        if |updated| > MAX_TEXT || OutputSize(plans) + |updated| > max then None
        else Some(plans + [Plan(item.path, disk[item.path], updated)])
  }

  lemma PlanFilesNext(files: seq<EditFile>, disk: map<string, Bytes>, max: int, i: nat, plans: seq<Plan>)
    requires i < |files| && PlanFiles(files[..i], disk, max) == Some(plans)
    ensures PlanFiles(files[..i + 1], disk, max) == PlanNext(plans, files[i], disk, max)
  {
    assert files[..i + 1][..i] == files[..i];
  }

  lemma PlanStops(files: seq<EditFile>, disk: map<string, Bytes>, max: int, i: nat, plans: seq<Plan>)
    requires i < |files| && PlanFiles(files[..i], disk, max) == Some(plans)
    requires PlanNext(plans, files[i], disk, max).None?
    ensures PlanFiles(files, disk, max).None?
  {
    PlanFilesNext(files, disk, max, i, plans);
    PlanPrefix(files, disk, max, i + 1);
  }

  lemma PlanGoesOn(files: seq<EditFile>, disk: map<string, Bytes>, max: int, i: nat, plans: seq<Plan>, plan: Plan)
    requires i < |files| && PlanFiles(files[..i], disk, max) == Some(plans)
    requires PlanNext(plans, files[i], disk, max) == Some(plans + [plan])
    ensures PlanFiles(files[..i + 1], disk, max) == Some(plans + [plan])
    ensures PathsOf(plans + [plan]) == PathsOf(plans) + {plan.path}
    ensures InputSize(plans + [plan]) == InputSize(plans) + |plan.original|
    ensures OutputSize(plans + [plan]) == OutputSize(plans) + |plan.updated|
  {
    PlanFilesNext(files, disk, max, i, plans);
    SizesPush(plans, plan);
  }

  function PathsOf(plans: seq<Plan>): set<string> {
    set k | 0 <= k < |plans| :: plans[k].path
  }

  /** A batch has one to twenty files. */
  function Preflight(files: seq<EditFile>, disk: map<string, Bytes>, max: int): Option<seq<Plan>> {
    if |files| == 0 || |files| > MAX_BATCH_FILES then None else PlanFiles(files, disk, max)
  }

  predicate AllText(plans: seq<Plan>) {
    forall i :: 0 <= i < |plans| ==> |plans[i].original| <= MAX_TEXT && |plans[i].updated| <= MAX_TEXT
  }

  /** What the plans of a batch are: one for each file, made from it, with distinct paths, and both
      totals within the limit. */
  ghost predicate GoodPlans(plans: seq<Plan>, files: seq<EditFile>, disk: map<string, Bytes>, max: int) {
    && |plans| == |files| && PlannedFrom(plans, disk) && AllText(plans)
    && (files != [] ==> InputSize(plans) <= max && OutputSize(plans) <= max)
    && forall i :: 0 <= i < |files| ==>
         plans[i].path == files[i].path && files[i].apply(plans[i].original) == Some(plans[i].updated)
  }

  lemma {:induction false} PlanFilesMeans(files: seq<EditFile>, disk: map<string, Bytes>, max: int)
    requires PlanFiles(files, disk, max).Some?
    ensures GoodPlans(PlanFiles(files, disk, max).value, files, disk, max)
  {
    if files != [] {
      var before, item := files[..|files| - 1], files[|files| - 1];
      PlanFilesMeans(before, disk, max);
      PlanNextMeans(PlanFiles(before, disk, max).value, before, item, disk, max);
      assert before + [item] == files;
    }
  }

  lemma PlanNextMeans(plans: seq<Plan>, before: seq<EditFile>, item: EditFile, disk: map<string, Bytes>, max: int)
    requires GoodPlans(plans, before, disk, max) && PlanNext(plans, item, disk, max).Some?
    ensures GoodPlans(PlanNext(plans, item, disk, max).value, before + [item], disk, max)
  {
    var longer := PlanNext(plans, item, disk, max).value;
    PlanPush(plans, disk, longer[|plans|]);
  }

  /** The plans before the last one do not use up the input budget. */
  predicate BudgetLeft(plans: seq<Plan>, max: int) {
    plans != [] ==> InputSize(plans[..|plans| - 1]) < max
  }

  lemma SizesLast(plans: seq<Plan>)
    requires plans != []
    ensures var before, last := plans[..|plans| - 1], plans[|plans| - 1];
            && InputSize(plans) == InputSize(before) + |last.original|
            && OutputSize(plans) == OutputSize(before) + |last.updated|
  {
  }

  lemma NextPlanned(before: seq<Plan>, last: Plan, item: EditFile, disk: map<string, Bytes>, max: int)
    requires forall k :: 0 <= k < |before| ==> before[k].path != item.path
    requires last.path == item.path && item.path in disk && disk[item.path] == last.original
    requires |last.original| <= MAX_TEXT && |last.updated| <= MAX_TEXT && InputSize(before) < max
    requires InputSize(before) + |last.original| <= max && OutputSize(before) + |last.updated| <= max
    requires item.apply(last.original) == Some(last.updated)
    ensures PlanNext(before, item, disk, max) == Some(before + [last])
  {
    assert last == Plan(item.path, disk[item.path], last.updated);
  }

  lemma LastPlanned(plans: seq<Plan>, item: EditFile, disk: map<string, Bytes>, max: int)
    requires plans != [] && PlannedFrom(plans, disk) && AllText(plans) && BudgetLeft(plans, max)
    requires InputSize(plans) <= max && OutputSize(plans) <= max
    requires plans[|plans| - 1].path == item.path
    requires item.apply(plans[|plans| - 1].original) == Some(plans[|plans| - 1].updated)
    ensures PlanNext(plans[..|plans| - 1], item, disk, max) == Some(plans)
  {
    var before, last := plans[..|plans| - 1], plans[|plans| - 1];
    SizesLast(plans);
    NextPlanned(before, last, item, disk, max);
    assert before + [last] == plans;
  }

  lemma FilesLast(plans: seq<Plan>, files: seq<EditFile>, disk: map<string, Bytes>, max: int)
    requires files != [] && GoodPlans(plans, files, disk, max) && BudgetLeft(plans, max)
    ensures var n := |files| - 1;
            && GoodPlans(plans[..n], files[..n], disk, max) && BudgetLeft(plans[..n], max)
            && PlanNext(plans[..n], files[n], disk, max) == Some(plans)
  {
    var n := |files| - 1;
    SizesLast(plans);
    LastPlanned(plans, files[n], disk, max);
    if n > 0 {
      SizesLast(plans[..n]);
    }
  }

  /** The plans of a batch are exactly such a list of plans whose inputs leave something of the budget for
      each file: if there is one, the batch is planned. */
  lemma {:induction false} PlanFilesIff(files: seq<EditFile>, disk: map<string, Bytes>, max: int, plans: seq<Plan>)
    ensures PlanFiles(files, disk, max) == Some(plans) <==> GoodPlans(plans, files, disk, max) && BudgetLeft(plans, max)
    decreases |files|
  {
    if files != [] {
      var n := |files| - 1;
      if PlanFiles(files, disk, max) == Some(plans) {
        PlanFilesMeans(files, disk, max);
        assert plans[..n] == PlanFiles(files[..n], disk, max).value;
      }
      if GoodPlans(plans, files, disk, max) && BudgetLeft(plans, max) {
        FilesLast(plans, files, disk, max);
        PlanFilesIff(files[..n], disk, max, plans[..n]);
      }
    }
  }

  /** One to twenty files are planned exactly when there is such a list of plans; no other batch is. */
  lemma PreflightIff(files: seq<EditFile>, disk: map<string, Bytes>, max: int, plans: seq<Plan>)
    ensures Preflight(files, disk, max) == Some(plans)
            <==> 1 <= |files| <= 20 && GoodPlans(plans, files, disk, max) && BudgetLeft(plans, max)
  {
    PlanFilesIff(files, disk, max, plans);
  }

  lemma {:induction false} PlanPrefix(files: seq<EditFile>, disk: map<string, Bytes>, max: int, k: nat)
    requires k <= |files| && PlanFiles(files[..k], disk, max).None?
    ensures PlanFiles(files, disk, max).None?
    decreases |files|
  {
    if k < |files| {
      assert files[..|files| - 1][..k] == files[..k];
      PlanPrefix(files[..|files| - 1], disk, max, k);
    } else {
      assert files[..k] == files;
    }
  }

  /** No plan is larger than the whole output. */
  lemma {:induction false} PlanFits(plans: seq<Plan>, i: nat)
    requires i < |plans|
    ensures |plans[i].updated| <= OutputSize(plans)
  {
    if i < |plans| - 1 {
      PlanFits(plans[..|plans| - 1], i);
    }
  }

  /** The files with the first n plans carried out. */
  function Carried(files: map<string, Bytes>, plans: seq<Plan>, n: nat): map<string, Bytes>
    requires n <= |plans|
  {
    if n == 0 then files else Carried(files, plans, n - 1)[plans[n - 1].path := plans[n - 1].updated]
  }

  lemma {:induction false} CarriedAt(files: map<string, Bytes>, plans: seq<Plan>, n: nat)
    requires n <= |plans| && PlannedFrom(plans, files)
    ensures Carried(files, plans, n).Keys == files.Keys
    ensures forall i :: 0 <= i < |plans| ==>
              Carried(files, plans, n)[plans[i].path] == if i < n then plans[i].updated else plans[i].original
    ensures forall path :: path in files && (forall i :: 0 <= i < |plans| ==> plans[i].path != path) ==>
              Carried(files, plans, n)[path] == files[path]
  {
    if n > 0 {
      CarriedAt(files, plans, n - 1);
    }
  }

  /** Files outside the batch are as before, and every target holds its original or its updated bytes. */
  ghost predicate OnlyTargets(now: map<string, Bytes>, before: map<string, Bytes>, plans: seq<Plan>) {
    && now.Keys == before.Keys
    && (forall path :: path in before && now[path] != before[path] ==>
          exists i :: 0 <= i < |plans| && plans[i].path == path)
    && forall i :: 0 <= i < |plans| && plans[i].path in now ==>
         now[plans[i].path] == plans[i].original || now[plans[i].path] == plans[i].updated
  }

  predicate HoldsOriginal(now: map<string, Bytes>, plan: Plan) {
    plan.path in now && now[plan.path] == plan.original
  }

  predicate HoldsUpdated(now: map<string, Bytes>, plan: Plan) {
    plan.path in now && now[plan.path] == plan.updated
  }

  lemma AllOriginal(now: map<string, Bytes>, before: map<string, Bytes>, plans: seq<Plan>)
    requires PlannedFrom(plans, before) && OnlyTargets(now, before, plans)
    requires forall i :: 0 <= i < |plans| ==> HoldsOriginal(now, plans[i])
    ensures now == before
  {
    assert forall i :: 0 <= i < |plans| ==> now[plans[i].path] == before[plans[i].path];
    assert forall path :: path in before ==> now[path] == before[path];
  }

  /** Writing one target keeps the others. */
  lemma TargetWritten(now: map<string, Bytes>, before: map<string, Bytes>, plans: seq<Plan>, k: nat, data: Bytes)
    requires PlannedFrom(plans, before) && OnlyTargets(now, before, plans) && k < |plans|
    requires data == plans[k].original || data == plans[k].updated
    ensures OnlyTargets(now[plans[k].path := data], before, plans)
    ensures forall i :: 0 <= i < |plans| && i != k && HoldsOriginal(now, plans[i]) ==>
              HoldsOriginal(now[plans[k].path := data], plans[i])
  {
    var next := now[plans[k].path := data];
    forall i | 0 <= i < |plans| && i != k
      ensures plans[i].path != plans[k].path
    {
      if i < k {
        assert plans[i].path != plans[k].path;
      }
    }
    assert plans[k].path in before;
  }

  // ----- how much of a batch a rollback may fail to restore -----------------------------

  /** How many of the targets from the k-th on do not hold their original bytes. */
  function Lost(now: map<string, Bytes>, plans: seq<Plan>, k: nat): nat
    requires k <= |plans|
    decreases |plans| - k
  {
    if k == |plans| then 0 else Lost(now, plans, k + 1) + (if HoldsOriginal(now, plans[k]) then 0 else 1)
  }

  /** Writing an earlier target changes nothing about the later ones. */
  lemma {:induction false} LostKept(now: map<string, Bytes>, before: map<string, Bytes>, plans: seq<Plan>, i: nat,
                                    data: Bytes, k: nat)
    requires PlannedFrom(plans, before) && i < k <= |plans|
    ensures Lost(now[plans[i].path := data], plans, k) == Lost(now, plans, k)
    decreases |plans| - k
  {
    if k < |plans| {
      LostKept(now, before, plans, i, data, k + 1);
    }
  }

  lemma {:induction false} LostNone(now: map<string, Bytes>, plans: seq<Plan>, k: nat)
    requires k <= |plans|
    ensures Lost(now, plans, k) == 0 <==> forall i :: k <= i < |plans| ==> HoldsOriginal(now, plans[i])
    decreases |plans| - k
  {
    if k < |plans| {
      LostNone(now, plans, k + 1);
    }
  }

  /** Every original may be written back. */
  predicate Restorable(plans: seq<Plan>, max: int) {
    AllText(plans) && forall i :: 0 <= i < |plans| ==> |plans[i].original| <= max
  }

  class Service {
    const fs: FileSystem

    constructor (fs: FileSystem)
      ensures this.fs == fs
    {
      this.fs := fs;
    }

    /** Reads every file within one shared budget and plans its change; nothing is written. */
    method PreflightEdits(files: seq<EditFile>, max: int) returns (r: Option<seq<Plan>>)
      modifies fs`failures
      ensures fs.failures <= old(fs.failures) <= fs.failures + 1
      ensures r == if fs.failures == old(fs.failures) then Preflight(files, fs.files, max) else None
    {
      if |files| == 0 || |files| > MAX_BATCH_FILES {
        return None;
      }
      var seen: set<string> := {};
      var plans: seq<Plan> := [];
      var inputTotal, outputTotal := 0, 0;
      ghost var disk := fs.files;
      for i := 0 to |files|
        invariant fs.failures == old(fs.failures)
        invariant PlanFiles(files[..i], disk, max) == Some(plans)
        invariant seen == PathsOf(plans)
        invariant inputTotal == InputSize(plans) && outputTotal == OutputSize(plans)
      {
        var next := PlanFile(plans, seen, inputTotal, outputTotal, files[i], max);
        if next.None? {
          if fs.failures == old(fs.failures) {
            PlanStops(files, disk, max, i, plans);
          }
          return None;
        }
        var plan := next.value;
        PlanGoesOn(files, disk, max, i, plans, plan);
        seen := seen + {plan.path};
        inputTotal, outputTotal := inputTotal + |plan.original|, outputTotal + |plan.updated|;
        plans := plans + [plan];
      }
      assert files[..|files|] == files;
      r := Some(plans);
    }

    /** One file of the preflight. */
    method PlanFile(ghost plans: seq<Plan>, seen: set<string>, inputTotal: int, outputTotal: int, item: EditFile,
                    max: int)
      returns (r: Option<Plan>)
      requires seen == PathsOf(plans)
      requires inputTotal == InputSize(plans) && outputTotal == OutputSize(plans)
      modifies fs`failures
      ensures fs.failures <= old(fs.failures) <= fs.failures + 1
      ensures r.Some? ==> fs.failures == old(fs.failures)
      ensures r.Some? ==> PlanNext(plans, item, fs.files, max) == Some(plans + [r.value])
      ensures r.None? && fs.failures == old(fs.failures) ==> PlanNext(plans, item, fs.files, max).None?
    {
      if item.path in seen {
        return None;
      }
      var remaining := max - inputTotal;
      if remaining <= 0 {
        return None;
      }
      var raw := fs.ReadFile(item.path, remaining);
      if raw.None? {
        return None;
      }
      if |raw.value| > MAX_TEXT {
        return None;
      }
      var updated := item.apply(raw.value);
      if updated.None? || |updated.value| > MAX_TEXT || outputTotal + |updated.value| > max {
        return None;
      }
      r := Some(Plan(item.path, raw.value, updated.value));
    }

    /** Puts the original bytes back; true means they are there, and without a failure they are. */
    method RestoreEdit(plan: Plan, max: int) returns (ok: bool)
      modifies fs
      ensures fs.failures <= old(fs.failures)
      ensures fs.files == old(fs.files)
              || (plan.path in old(fs.files) && fs.files == old(fs.files)[plan.path := plan.original])
      ensures ok ==> HoldsOriginal(fs.files, plan)
      ensures (plan.path in old(fs.files) && old(fs.files)[plan.path] in {plan.original, plan.updated}
               && |plan.original| <= max && |plan.original| <= MAX_TEXT && |plan.updated| <= MAX_TEXT
               && fs.failures == old(fs.failures)) ==> ok
    {
      var written := fs.WriteFile(plan.path, plan.original, Some(plan.After()), max);
      if written {
        return true;
      }
      var currentHash := fs.Checksum(plan.path);
      ok := currentHash == Some(plan.Before());
    }

    /** The branch after a failed write: look at the failed target, then undo the earlier ones, each
        whatever became of the others.  At most one target stays changed for each operation that fails
        here; without one, everything is restored. */
    method RollBack(plans: seq<Plan>, failed: nat, max: int, ghost before: map<string, Bytes>) returns (r: Response)
      requires failed < |plans| && PlannedFrom(plans, before) && OnlyTargets(fs.files, before, plans)
      requires forall i :: failed < i < |plans| ==> HoldsOriginal(fs.files, plans[i])
      modifies fs
      ensures r.RolledBack? || r.RollbackIncomplete?
      ensures OnlyTargets(fs.files, before, plans) && fs.failures <= old(fs.failures)
      ensures r.RolledBack? ==> fs.files == before
      ensures r.RolledBack? ==>
                (r.restored <==> failed > 0 || HoldsUpdated(old(fs.files), plans[failed]))
      ensures Restorable(plans, max) ==> Lost(fs.files, plans, 0) <= old(fs.failures) - fs.failures
      ensures Restorable(plans, max) && fs.failures == old(fs.failures) ==> r.RolledBack?
    {
      var rollbackOK, rolledBack := RestoreFailed(plans, failed, max, before);
      if failed > 0 {
        rolledBack := true;
        rollbackOK := RestoreEarlier(plans, failed, max, before, rollbackOK);
      }
      if !rollbackOK {
        return RollbackIncomplete;
      }
      AllOriginal(fs.files, before, plans);
      r := RolledBack(rolledBack);
    }

    /** The targets written before the failed one, last first. */
    method RestoreEarlier(plans: seq<Plan>, failed: nat, max: int, ghost before: map<string, Bytes>, ok: bool)
      returns (rollbackOK: bool)
      requires failed < |plans| && PlannedFrom(plans, before) && OnlyTargets(fs.files, before, plans)
      requires ok ==> forall i :: failed <= i < |plans| ==> HoldsOriginal(fs.files, plans[i])
      modifies fs
      ensures OnlyTargets(fs.files, before, plans) && fs.failures <= old(fs.failures)
      ensures rollbackOK ==> ok && forall i :: 0 <= i < |plans| ==> HoldsOriginal(fs.files, plans[i])
      ensures Restorable(plans, max) ==>
                Lost(fs.files, plans, 0) <= old(Lost(fs.files, plans, failed)) + old(fs.failures) - fs.failures
      ensures Restorable(plans, max) && ok && fs.failures == old(fs.failures) ==> rollbackOK
    {
      rollbackOK := ok;
      var previous := failed;
      ghost var lost := Lost(fs.files, plans, failed);
      while previous > 0
        invariant 0 <= previous <= failed && OnlyTargets(fs.files, before, plans) && fs.failures <= old(fs.failures)
        invariant rollbackOK ==> ok && forall i :: previous <= i < |plans| ==> HoldsOriginal(fs.files, plans[i])
        invariant Restorable(plans, max) ==>
                    Lost(fs.files, plans, previous) <= lost + old(fs.failures) - fs.failures
        invariant Restorable(plans, max) && ok && fs.failures == old(fs.failures) ==> rollbackOK
      {
        previous := previous - 1;
        var restored := Restore(plans, previous, max, before);
        if !restored {
          rollbackOK := false;
        }
      }
    }

    /** The failed target: restored if it holds its updated bytes, left alone if it holds the original. */
    method RestoreFailed(plans: seq<Plan>, failed: nat, max: int, ghost before: map<string, Bytes>)
      returns (rollbackOK: bool, rolledBack: bool)
      requires failed < |plans| && PlannedFrom(plans, before) && OnlyTargets(fs.files, before, plans)
      requires forall i :: failed < i < |plans| ==> HoldsOriginal(fs.files, plans[i])
      modifies fs
      ensures OnlyTargets(fs.files, before, plans) && fs.failures <= old(fs.failures)
      ensures rollbackOK ==> forall i :: failed <= i < |plans| ==> HoldsOriginal(fs.files, plans[i])
      ensures rollbackOK ==> (rolledBack <==> HoldsUpdated(old(fs.files), plans[failed]))
      ensures Restorable(plans, max) ==> Lost(fs.files, plans, failed) <= old(fs.failures) - fs.failures
      ensures Restorable(plans, max) && fs.failures == old(fs.failures) ==> rollbackOK
    {
      rollbackOK, rolledBack := true, false;
      LostNone(fs.files, plans, failed + 1);
      assert plans[failed].path in before;
      var currentHash := fs.Checksum(plans[failed].path);
      if currentHash.None? {
        rollbackOK := false;
      } else if currentHash.value == plans[failed].After() {
        rolledBack := true;
        var ok := Restore(plans, failed, max, before);
        if !ok {
          rollbackOK := false;
        }
      } else if currentHash.value != plans[failed].Before() {
        rollbackOK := false;
      }
    }

    /** Restoring one target of the batch. */
    method Restore(plans: seq<Plan>, k: nat, max: int, ghost before: map<string, Bytes>) returns (ok: bool)
      requires k < |plans| && PlannedFrom(plans, before) && OnlyTargets(fs.files, before, plans)
      modifies fs
      ensures OnlyTargets(fs.files, before, plans) && fs.failures <= old(fs.failures)
      ensures ok ==> HoldsOriginal(fs.files, plans[k])
      ensures forall i :: k < i < |plans| && old(HoldsOriginal(fs.files, plans[i])) ==>
                HoldsOriginal(fs.files, plans[i])
      ensures Lost(fs.files, plans, k + 1) == old(Lost(fs.files, plans, k + 1))
      ensures Restorable(plans, max) && fs.failures == old(fs.failures) ==> ok
    {
      TargetWritten(fs.files, before, plans, k, plans[k].original);
      LostKept(fs.files, before, plans, k, plans[k].original, k + 1);
      assert plans[k].path in before;
      ok := RestoreEdit(plans[k], max);
    }

    /** The whole operation.  Success leaves exactly the updated files, a completed rollback exactly the
        original ones, and no outcome touches a file outside the batch.  If only the write fails, the
        rollback completes. */
    method Edit(files: seq<EditFile>, apply: bool, targets: seq<Target>, max: int)
      returns (r: Response, ghost plans: seq<Plan>, ghost failed: nat, ghost left: map<string, Bytes>)
      modifies fs
      ensures fs.failures <= old(fs.failures)
      ensures !r.Rejected? ==> Preflight(files, old(fs.files), max) == Some(plans)
                               && GoodPlans(plans, files, old(fs.files), max)
      ensures Preflight(files, old(fs.files), max).None? ==> r.Rejected?
      ensures r.Rejected? && Preflight(files, old(fs.files), max).Some? ==> fs.failures + 1 == old(fs.failures)
      ensures fs.failures == old(fs.failures) ==>
                r == match Preflight(files, old(fs.files), max)
                     case None => Rejected
                     case Some(p) =>
                       if !apply then Preview else if TargetsOf(p) != targets then TargetsChanged else Applied
      ensures !r.Rejected? && fs.failures + 1 == old(fs.failures) ==> r.RolledBack?
      ensures r.RollbackIncomplete? ==> Lost(fs.files, plans, 0) < old(fs.failures) - fs.failures
      ensures r.Applied? ==> fs.files == Carried(old(fs.files), plans, |plans|)
      ensures r.Applied? ==> |targets| == |files| && forall i :: 0 <= i < |files| ==>
                && files[i].path in old(fs.files) && files[i].path in fs.files
                && targets[i] == Target(files[i].path, Digest(old(fs.files)[files[i].path]),
                                        Digest(fs.files[files[i].path]))
      ensures r.Rejected? || r.Preview? || r.TargetsChanged? || r.RolledBack? ==> fs.files == old(fs.files)
      ensures r.RollbackIncomplete? ==> OnlyTargets(fs.files, old(fs.files), plans)
      ensures r.RolledBack? ==> RestoredMeans(plans, failed, left, old(fs.files), r.restored)
      ensures r.Preview? <==> !r.Rejected? && !apply
      ensures r.Applied? || r.RolledBack? || r.RollbackIncomplete? ==> apply && targets == TargetsOf(plans)
    {
      plans, failed, left := [], 0, fs.files;
      var preflight := PreflightEdits(files, max);
      if preflight.None? {
        return Rejected, plans, failed, left;
      }
      var todo := preflight.value;
      plans := todo;
      PlanFilesMeans(files, fs.files, max);
      if !apply {
        return Preview, plans, failed, left;
      }
      var actualTargets := TargetsOf(todo);
      if actualTargets != targets {
        return TargetsChanged, plans, failed, left;
      }
      AllRestorable(todo, max);
      r, failed, left := Apply(todo, max);
      CarriedAt(old(fs.files), todo, |todo|);
    }

    /** The writes, in order; the first failure rolls everything back. */
    method Apply(plans: seq<Plan>, max: int) returns (r: Response, ghost failed: nat, ghost left: map<string, Bytes>)
      requires PlannedFrom(plans, fs.files) && Restorable(plans, max) && OutputSize(plans) <= max
      modifies fs
      ensures fs.failures <= old(fs.failures)
      ensures r.Applied? <==> fs.failures == old(fs.failures)
      ensures fs.failures + 1 == old(fs.failures) ==> r.RolledBack?
      ensures r.Applied? || Lost(fs.files, plans, 0) < old(fs.failures) - fs.failures
      ensures r.Applied? || r.RolledBack? || r.RollbackIncomplete?
      ensures r.Applied? ==> fs.files == Carried(old(fs.files), plans, |plans|)
      ensures r.RolledBack? ==> fs.files == old(fs.files)
      ensures r.RolledBack? ==> RestoredMeans(plans, failed, left, old(fs.files), r.restored)
      ensures r.RollbackIncomplete? ==> OnlyTargets(fs.files, old(fs.files), plans)
    {
      failed, left := 0, fs.files;
      var written := 0;
      while written < |plans|
        invariant written <= |plans| && fs.failures == old(fs.failures)
        invariant fs.files == Carried(old(fs.files), plans, written)
      {
        CarriedAt(old(fs.files), plans, written);
        PlanFits(plans, written);
        var ok := fs.WriteFile(plans[written].path, plans[written].updated, Some(plans[written].Before()), max);
        if !ok {
          failed, left := written, fs.files;
          FailedWrite(fs.files, old(fs.files), plans, written);
          r := RollBack(plans, written, max, old(fs.files));
          return;
        }
        written := written + 1;
      }
      r := Applied;
    }
  }

  /** The failed write left the first `failed` targets updated, and its own target changed or not; something
      was to be restored exactly when an earlier target was written or its own holds the updated bytes. */
  ghost predicate RestoredMeans(plans: seq<Plan>, failed: nat, left: map<string, Bytes>, before: map<string, Bytes>,
                                restored: bool)
  {
    && failed < |plans|
    && (left == Carried(before, plans, failed) || left == Carried(before, plans, failed + 1))
    && (restored <==> failed > 0 || HoldsUpdated(left, plans[failed]))
  }

  lemma AllRestorable(plans: seq<Plan>, max: int)
    requires AllText(plans) && InputSize(plans) <= max
    ensures Restorable(plans, max)
  {
    forall i | 0 <= i < |plans|
      ensures |plans[i].original| <= max
    {
      OriginalFits(plans, i);
    }
  }

  /** No original is larger than the whole input. */
  lemma {:induction false} OriginalFits(plans: seq<Plan>, i: nat)
    requires i < |plans|
    ensures |plans[i].original| <= InputSize(plans)
  {
    if i < |plans| - 1 {
      OriginalFits(plans[..|plans| - 1], i);
    }
  }

  lemma SizesPush(plans: seq<Plan>, plan: Plan)
    ensures InputSize(plans + [plan]) == InputSize(plans) + |plan.original|
    ensures OutputSize(plans + [plan]) == OutputSize(plans) + |plan.updated|
    ensures PathsOf(plans + [plan]) == PathsOf(plans) + {plan.path}
  {
    var longer := plans + [plan];
    assert longer[..|plans|] == plans && longer[|plans|] == plan;
    forall path | path in PathsOf(plans) + {plan.path}
      ensures path in PathsOf(longer)
    {
      if path != plan.path {
        var k :| 0 <= k < |plans| && plans[k].path == path;
        assert longer[k].path == path;
      }
    }
  }

  lemma PlanPush(plans: seq<Plan>, files: map<string, Bytes>, plan: Plan)
    requires PlannedFrom(plans, files) && plan.path in files && files[plan.path] == plan.original
    requires forall k :: 0 <= k < |plans| ==> plans[k].path != plan.path
    ensures PlannedFrom(plans + [plan], files)
    ensures InputSize(plans + [plan]) == InputSize(plans) + |plan.original|
    ensures OutputSize(plans + [plan]) == OutputSize(plans) + |plan.updated|
  {
    SizesPush(plans, plan);
    var longer := plans + [plan];
    forall i | 0 <= i < |longer|
      ensures longer[i].path in files && files[longer[i].path] == longer[i].original
      ensures i < |plans| ==> longer[i].path != plan.path
    {
      assert longer[i] == if i < |plans| then plans[i] else plan;
    }
  }

  /** After a failed write the files are between two steps of the batch. */
  lemma FailedWrite(now: map<string, Bytes>, before: map<string, Bytes>, plans: seq<Plan>, n: nat)
    requires n < |plans| && PlannedFrom(plans, before)
    requires now == Carried(before, plans, n) || now == Carried(before, plans, n + 1)
    ensures OnlyTargets(now, before, plans)
    ensures forall i :: n < i < |plans| ==> HoldsOriginal(now, plans[i])
  {
    CarriedAt(before, plans, n);
    CarriedAt(before, plans, n + 1);
  }

  /** What a carried-out batch means for its targets and for every other file. */
  lemma AppliedMeans(before: map<string, Bytes>, plans: seq<Plan>)
    requires PlannedFrom(plans, before)
    ensures var now := Carried(before, plans, |plans|);
            && now.Keys == before.Keys
            && (forall i :: 0 <= i < |plans| ==> now[plans[i].path] == plans[i].updated)
            && (forall path :: path in before && (forall i :: 0 <= i < |plans| ==> plans[i].path != path) ==>
                  now[path] == before[path])
  {
    CarriedAt(before, plans, |plans|);
  }
}
