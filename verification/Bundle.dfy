/** The bundle download: one archive holding every requested export under its own name. */
module Bundle {
  import opened Octets
  import opened Results
  import ZipFormat
  import ZipWriters
  import EntryNames

  /** One finished export: the file name rendered for it, and its content as it is read back. */
  datatype Job = Job(filename: seq<byte>, chunks: seq<seq<byte>>)

  datatype BundleError = TooManyDuplicates | Zip(error: ZipWriters.ZipError)

  /** `{folder}/{entry_name}`, as `append_file_from_path` stores it. */
  function EntryPath(folder: seq<byte>, entry: seq<byte>): seq<byte> {
    ZipWriters.Normalize(folder + [ZipWriters.SLASH] + entry)
  }

  /** Free of the character that `Normalize` rewrites. */
  ghost predicate Clean(name: seq<byte>) {
    forall i :: 0 <= i < |name| ==> name[i] != ZipWriters.BACKSLASH
  }

  lemma CandidateClean(name: seq<byte>, i: nat)
    ensures Clean(EntryNames.Candidate(ZipWriters.Normalize(name), i))
  {
  }

  lemma EntryPathInjective(folder: seq<byte>, a: seq<byte>, b: seq<byte>)
    requires Clean(a) && Clean(b) && EntryPath(folder, a) == EntryPath(folder, b)
    ensures a == b
  {
    var n := |folder| + 1;
    forall i | 0 <= i < |a|
      ensures a[i] == b[i]
    {
      assert EntryPath(folder, a)[n + i] == EntryPath(folder, b)[n + i];
      assert (folder + [ZipWriters.SLASH] + a)[n + i] == a[i] && (folder + [ZipWriters.SLASH] + b)[n + i] == b[i];
    }
  }

  /** The entry for an export is its file name, or one of the numbered variants of it. */
  ghost predicate IsVariant(entry: seq<byte>, filename: seq<byte>) {
    exists n :: 1 <= n < EntryNames.SUFFIX_LIMIT && entry == EntryNames.Candidate(ZipWriters.Normalize(filename), n)
  }

  ghost predicate IsPathFor(path: seq<byte>, folder: seq<byte>, filename: seq<byte>) {
    exists entry :: IsVariant(entry, filename) && path == EntryPath(folder, entry)
  }

  /** The names and files of a whole bundle. */
  datatype Plan = Plan(names: seq<seq<byte>>, files: seq<ZipFormat.File>)

  /** Each export gets the first variant of its file name that no export before it has taken; `None` if one finds all
      variants taken. */
  function PlanFor(folder: seq<byte>, jobs: seq<Job>): (p: Option<Plan>)
    ensures p.Some? ==> |p.value.names| == |p.value.files| == |jobs|
  {
    if jobs == [] then Some(Plan([], []))
    else
      var last := jobs[|jobs| - 1];
      match PlanFor(folder, jobs[..|jobs| - 1])
      case None => None
      case Some(p) =>
        match EntryNames.FirstFree(ZipWriters.Normalize(last.filename), (set n | n in p.names), 1)
        case None => None
        case Some(name) =>
          Some(Plan(p.names + [name], p.files + [ZipFormat.File(EntryPath(folder, name), Flatten(last.chunks))]))
  }

  /** A plan starts with the plans of its first exports. */
  lemma {:induction false} PlanPrefix(folder: seq<byte>, jobs: seq<Job>, k: nat)
    requires k <= |jobs| && PlanFor(folder, jobs).Some?
    ensures PlanFor(folder, jobs[..k]).Some?
    ensures PlanFor(folder, jobs[..k]).value.files <= PlanFor(folder, jobs).value.files
  {
    hide EntryNames.FirstFree, EntryPath, Flatten, ZipWriters.Normalize;
    if k == |jobs| {
      assert jobs[..k] == jobs;
    } else {
      PlanPrefix(folder, jobs[..|jobs| - 1], k);
      assert jobs[..|jobs| - 1][..k] == jobs[..k];
    }
  }

  lemma {:induction false} SizeOfPrefix(files: seq<ZipFormat.File>, all: seq<ZipFormat.File>, k: nat)
    requires files <= all && k <= |files|
    ensures ZipFormat.LocalSize(files, k) == ZipFormat.LocalSize(all, k)
  {
    if k > 0 {
      SizeOfPrefix(files, all, k - 1);
    }
  }

  lemma {:induction false} SizeGrows(files: seq<ZipFormat.File>, j: nat, k: nat)
    requires j <= k <= |files|
    ensures ZipFormat.LocalSize(files, j) <= ZipFormat.LocalSize(files, k)
  {
    if j < k {
      SizeGrows(files, j, k - 1);
    }
  }

  /** A file that cannot be appended is in no archive that fits. */
  lemma AppendFailsUnfit(folder: seq<byte>, jobs: seq<Job>, k: nat, files: seq<ZipFormat.File>, f: ZipFormat.File)
    requires k < |jobs| && |files| == k
    requires PlanFor(folder, jobs[..k + 1]).Some? && PlanFor(folder, jobs[..k + 1]).value.files == files + [f]
    requires |f.name| > U16_MAX || |f.body| > U32_MAX || ZipFormat.LocalSize(files, |files|) > U32_MAX
    ensures PlanFor(folder, jobs).Some? ==> !ZipFormat.Fits(PlanFor(folder, jobs).value.files)
  {
    hide PlanFor, ZipFormat.LocalSize, ZipFormat.CentralSize;
    if PlanFor(folder, jobs).Some? {
      var all := PlanFor(folder, jobs).value.files;
      PlanPrefix(folder, jobs, k + 1);
      assert files <= all && all[k] == f;
      SizeOfPrefix(files, all, k);
      SizeGrows(all, k, |all|);
    }
  }

  /** What a plan amounts to for its `k`-th export. */
  ghost predicate Planned(p: Plan, folder: seq<byte>, job: Job, k: nat)
    requires k < |p.names| == |p.files|
  {
    Clean(p.names[k]) && IsVariant(p.names[k], job.filename)
    && p.files[k] == ZipFormat.File(EntryPath(folder, p.names[k]), Flatten(job.chunks))
  }

  lemma NewName(filename: seq<byte>, used: set<seq<byte>>, name: seq<byte>)
    requires EntryNames.FirstFree(ZipWriters.Normalize(filename), used, 1) == Some(name)
    ensures name !in used && Clean(name) && IsVariant(name, filename)
  {
    hide EntryNames.FirstFree, EntryNames.Candidate, ZipWriters.Normalize, Clean;
    EntryNames.FirstFreeMeans(ZipWriters.Normalize(filename), used, 1);
    var j :| 1 <= j < EntryNames.SUFFIX_LIMIT && name == EntryNames.Candidate(ZipWriters.Normalize(filename), j);
    CandidateClean(filename, j);
  }

  /** A plan lists the exports in order, each under a variant of its own name, with no name twice. */
  lemma {:induction false} PlanMeans(folder: seq<byte>, jobs: seq<Job>)
    requires PlanFor(folder, jobs).Some?
    ensures var p := PlanFor(folder, jobs).value; Distinct(p.names)
    ensures forall i :: 0 <= i < |jobs| ==> Planned(PlanFor(folder, jobs).value, folder, jobs[i], i)
  {
    hide EntryNames.FirstFree, EntryPath, Flatten, ZipWriters.Normalize, IsVariant, Clean;
    if jobs != [] {
      var front, last := jobs[..|jobs| - 1], jobs[|jobs| - 1];
      PlanMeans(folder, front);
      var p, all := PlanFor(folder, front).value, PlanFor(folder, jobs).value;
      NewName(last.filename, (set n | n in p.names), all.names[|front|]);
      forall i | 0 <= i < |jobs| ensures Planned(all, folder, jobs[i], i) {
        if i < |front| {
          assert Planned(p, folder, front[i], i);
        }
      }
    }
  }

  lemma PathsDistinct(folder: seq<byte>, jobs: seq<Job>)
    requires PlanFor(folder, jobs).Some?
    ensures forall i, j :: 0 <= i < j < |jobs| ==>
      PlanFor(folder, jobs).value.files[i].name != PlanFor(folder, jobs).value.files[j].name
  {
    hide PlanFor, Clean, EntryPath, IsVariant;
    PlanMeans(folder, jobs);
    var p := PlanFor(folder, jobs).value;
    forall i, j | 0 <= i < j < |jobs| ensures p.files[i].name != p.files[j].name {
      assert Planned(p, folder, jobs[i], i) && Planned(p, folder, jobs[j], j);
      if p.files[i].name == p.files[j].name {
        EntryPathInjective(folder, p.names[i], p.names[j]);
      }
    }
  }

  lemma PlanStep(folder: seq<byte>, jobs: seq<Job>, k: nat, used: set<seq<byte>>)
    requires k < |jobs| && PlanFor(folder, jobs[..k]).Some?
    requires used == set n | n in PlanFor(folder, jobs[..k]).value.names
    ensures var p := PlanFor(folder, jobs[..k]).value;
      PlanFor(folder, jobs[..k + 1]) ==
      match EntryNames.FirstFree(ZipWriters.Normalize(jobs[k].filename), used, 1)
      case None => None
      case Some(name) =>
        Some(Plan(p.names + [name], p.files + [ZipFormat.File(EntryPath(folder, name), Flatten(jobs[k].chunks))]))
  {
    hide EntryNames.FirstFree, EntryPath, Flatten, ZipWriters.Normalize;
    assert jobs[..k + 1][..k] == jobs[..k];
  }

  /**
   * `create_bundle_zip`: it succeeds exactly when every export gets a name and everything fits, and
   * then whoever opens the archive finds every export, in request order, bit for bit, each under a
   * variant of its own file name and no two under one name.
   */
  method CreateBundleZip(folder: seq<byte>, jobs: seq<Job>)
    returns (r: Result<seq<byte>, BundleError>, ghost files: seq<ZipFormat.File>)
    requires forall i, k :: 0 <= i < |jobs| && 0 <= k < |jobs[i].chunks| ==> 0 < |jobs[i].chunks[k]| <= 64 * 1024
    ensures r.Ok? <==> PlanFor(folder, jobs).Some? && ZipFormat.Fits(PlanFor(folder, jobs).value.files)
    ensures r == Err(TooManyDuplicates) ==> PlanFor(folder, jobs).None? && |jobs| >= EntryNames.SUFFIX_LIMIT
    ensures r.Ok? ==> files == PlanFor(folder, jobs).value.files
    ensures r.Ok? ==> ZipFormat.ReadArchive(r.value) == Some(ZipFormat.Members(files))
    ensures r.Ok? ==> forall i :: 0 <= i < |jobs| ==>
      files[i].body == Flatten(jobs[i].chunks) && IsPathFor(files[i].name, folder, jobs[i].filename)
    ensures r.Ok? ==> forall i, j :: 0 <= i < j < |files| ==> files[i].name != files[j].name
  {
    hide ZipFormat.ReadArchive, ZipFormat.Members, ZipFormat.Archive, ZipFormat.Fits, ZipWriters.Written, PlanFor;
    hide ZipWriters.Normalize, EntryNames.Candidate, EntryNames.FirstFree, EntryNames.InUse, Flatten, IsPathFor;
    var zip := new ZipWriters.StoredZipWriter.Create();
    var used := new EntryNames.NameSet();
    PlanNothing(folder, jobs);
    for k := 0 to |jobs|
      invariant zip.Valid() && used.Valid() && fresh(zip) && fresh(used)
      invariant PlanFor(folder, jobs[..k]) == Some(Plan(used.issued, zip.files))
    {
      UsedAre(used.used, used.issued);
      PlanStep(folder, jobs, k, used.used);
      var name := used.Unique(jobs[k].filename);
      if name.Err? {
        if PlanFor(folder, jobs).Some? {
          PlanPrefix(folder, jobs, k + 1);
        }
        return Err(TooManyDuplicates), [];
      }
      ZipWriters.WrittenOffset(zip.files, zip.out, zip.central, zip.offset);
      ghost var before := zip.files;
      var appended := zip.AppendFile(folder + [ZipWriters.SLASH] + name.value, jobs[k].chunks);
      if appended.Err? {
        AppendFailsUnfit(folder, jobs, k, before,
                         ZipFormat.File(EntryPath(folder, name.value), Flatten(jobs[k].chunks)));
        return Err(Zip(appended.error)), [];
      }
    }
    assert jobs[..|jobs|] == jobs;
    PathsDistinct(folder, jobs);
    PathsNamed(folder, jobs);
    var finished := zip.Finish();
    if finished.Err? {
      return Err(Zip(finished.error)), [];
    }
    return Ok(zip.out), zip.files;
  }

  lemma PlanNothing(folder: seq<byte>, jobs: seq<Job>)
    ensures PlanFor(folder, jobs[..0]) == Some(Plan([], []))
  {
  }

  lemma UsedAre(used: set<seq<byte>>, issued: seq<seq<byte>>)
    requires EntryNames.InUse(used, issued)
    ensures used == (set n | n in issued) && |used| == |issued|
  {
  }

  lemma PathsNamed(folder: seq<byte>, jobs: seq<Job>)
    requires PlanFor(folder, jobs).Some?
    ensures var files := PlanFor(folder, jobs).value.files; forall i :: 0 <= i < |jobs| ==>
      files[i].body == Flatten(jobs[i].chunks) && IsPathFor(files[i].name, folder, jobs[i].filename)
  {
    hide PlanFor, IsVariant, EntryPath, Clean;
    PlanMeans(folder, jobs);
    var p := PlanFor(folder, jobs).value;
    forall i | 0 <= i < |jobs|
      ensures p.files[i].body == Flatten(jobs[i].chunks) && IsPathFor(p.files[i].name, folder, jobs[i].filename)
    {
      assert Planned(p, folder, jobs[i], i);
    }
  }
}
