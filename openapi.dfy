/**
  The description-directory part of GetDescriptions: each directory name of
  github/rest-api-description's "descriptions/" is classified against three
  plan patterns, old GHES releases are dropped, and the files are sorted by
  plan, then by release, newest first.
*/
module OpenapiDirs {
  import opened Options
  import opened Text
  import opened Sorting

  /** An OpenAPI description file, without its loaded contents. */
  datatype OpenapiFile = OpenapiFile(filename: string, plan: string, planIdx: nat, releaseMajor: int, releaseMinor: int)

  /** less: planIdx ascending, then releaseMajor descending, then releaseMinor descending. */
  predicate Less(o: OpenapiFile, other: OpenapiFile) {
    if o.planIdx != other.planIdx then o.planIdx < other.planIdx
    else if o.releaseMajor != other.releaseMajor then o.releaseMajor > other.releaseMajor
    else o.releaseMinor > other.releaseMinor
  }

  /** The plans of dirPatterns, in pattern order. */
  const PlanNames: seq<string> := ["api.github.com", "ghec", "ghes"]

  /** The largest Go `int` on a 64-bit platform. */
  const MaxInt: int := 0x7FFF_FFFF_FFFF_FFFF

  /**
    strconv.Atoi on a submatch of a pattern: the empty string (the version
    group did not take part) and a non-digit text are errors whose value is 0;
    a digit string out of range is an error whose value is the largest int.
  */
  function Atoi(s: string): (r: int)
    ensures 0 <= r <= MaxInt
    ensures s == "" ==> r == 0
    ensures AllDigits(s) && DigitsValue(s) <= MaxInt ==> r == DigitsValue(s)
    ensures |s| > 0 && AllDigits(s) && DigitsValue(s) > MaxInt ==> r == MaxInt
    ensures !AllDigits(s) ==> r == 0
  {
    if |s| > 0 && AllDigits(s) then (if DigitsValue(s) > MaxInt then MaxInt else DigitsValue(s)) else 0
  }

  /** The optional `(-(\d+)\.(\d+))?$` tail of a pattern: the major and minor submatches. */
  function MatchVersion(rest: string): (r: Option<(string, string)>)
    ensures r.Some? && r.value.0 == "" ==> rest == "" && r.value.1 == ""
    ensures r.Some? && rest != "" ==>
              && rest == "-" + r.value.0 + "." + r.value.1
              && |r.value.0| > 0 && |r.value.1| > 0 && AllDigits(r.value.0) && AllDigits(r.value.1)
  {
    if rest == "" then Some(("", ""))
    else if rest[0] != '-' then None
    else
      var (major, minor, found) := Cut(rest[1..], '.');
      if found && |major| > 0 && |minor| > 0 && AllDigits(major) && AllDigits(minor) then
        assert rest == "-" + rest[1..];
        Some((major, minor))
      else None
  }

  /** FindStringSubmatch of one dirPatterns entry: the name is the plan, optionally followed by the version. */
  function MatchPattern(name: string, plan: string): Option<(string, string)> {
    if HasPrefix(name, plan) then MatchVersion(name[|plan|..]) else None
  }

  /** The description file inside a directory. */
  function DescriptionFilename(name: string): string {
    "descriptions/" + name + "/" + name + ".json"
  }

  /** The inner loop over the patterns from index `i`: the first match that is not an old GHES release. */
  function ClassifyFrom(name: string, i: nat): Option<OpenapiFile>
    requires i <= |PlanNames|
    decreases |PlanNames| - i
  {
    if i == |PlanNames| then None
    else
      match MatchPattern(name, PlanNames[i])
      case None => ClassifyFrom(name, i + 1)
      case Some((ma, mi)) =>
        var major := Atoi(ma);
        var minor := Atoi(mi);
        if PlanNames[i] == "ghes" && major < 3 then ClassifyFrom(name, i + 1)
        else Some(OpenapiFile(DescriptionFilename(name), PlanNames[i], i, major, minor))
  }

  function Classify(name: string): Option<OpenapiFile> {
    ClassifyFrom(name, 0)
  }

  /**
    A kept directory is filed under the first pattern from `i` that keeps it:
    its description file, that pattern's plan, and the release its submatches
    parse to, never a GHES release before 3.
  */
  lemma {:induction false} ClassifiedShape(name: string, i: nat)
    requires i <= |PlanNames|
    ensures var r := ClassifyFrom(name, i);
      r.Some? ==>
        && i <= r.value.planIdx < |PlanNames| && r.value.plan == PlanNames[r.value.planIdx]
        && r.value.filename == DescriptionFilename(name)
        && MatchPattern(name, r.value.plan).Some?
        && r.value.releaseMajor == Atoi(MatchPattern(name, r.value.plan).value.0)
        && r.value.releaseMinor == Atoi(MatchPattern(name, r.value.plan).value.1)
        && (r.value.plan == "ghes" ==> r.value.releaseMajor >= 3)
    decreases |PlanNames| - i
  {
    if i < |PlanNames| {
      ClassifiedShape(name, i + 1);
    }
  }

  /** The kept directories, in listing order, before sorting. */
  function ClassifyAll(names: seq<string>): seq<OpenapiFile> {
    if |names| == 0 then []
    else
      var rest := ClassifyAll(names[..|names| - 1]);
      match Classify(names[|names| - 1])
      case None => rest
      case Some(f) => rest + [f]
  }

  /** One turn of the directory loop: the patterns in order, `continue` on a miss or an old GHES release, `break` on a keep. */
  method ClassifyDir(name: string) returns (r: Option<OpenapiFile>)
    ensures r == Classify(name)
  {
    r := None;
    var i := 0;
    while i < |PlanNames|
      invariant 0 <= i <= |PlanNames|
      invariant Classify(name) == ClassifyFrom(name, i)
    {
      var m := MatchPattern(name, PlanNames[i]);
      if m.None? {
        i := i + 1;
        continue;
      }
      var major := Atoi(m.value.0);
      var minor := Atoi(m.value.1);
      if PlanNames[i] == "ghes" && major < 3 {
        i := i + 1;
        continue;
      }
      r := Some(OpenapiFile(DescriptionFilename(name), PlanNames[i], i, major, minor));
      return;
    }
  }

  /** The classify, filter and sort part of GetDescriptions, over the listed directory names. */
  method DescriptionFiles(dirNames: seq<string>) returns (files: seq<OpenapiFile>)
    ensures SortedBy(files, Less)
    ensures multiset(files) == multiset(ClassifyAll(dirNames))
  {
    var kept: seq<OpenapiFile> := [];
    var k := 0;
    while k < |dirNames|
      invariant 0 <= k <= |dirNames|
      invariant kept == ClassifyAll(dirNames[..k])
    {
      assert dirNames[..k + 1][..k] == dirNames[..k];
      var f := ClassifyDir(dirNames[k]);
      if f.Some? {
        kept := kept + [f.value];
      }
      k := k + 1;
    }
    assert dirNames[..k] == dirNames;
    LessOrder();
    files := SortedCopy(kept, Less);
  }

  // ---------------------------------------------------------------------
  // The order

  function Key(o: OpenapiFile): (int, int, int) {
    (o.planIdx, -o.releaseMajor, -o.releaseMinor)
  }

  predicate TripleLess(a: (int, int, int), b: (int, int, int)) {
    a.0 < b.0 || (a.0 == b.0 && (a.1 < b.1 || (a.1 == b.1 && a.2 < b.2)))
  }

  lemma TripleLessOrder()
    ensures StrictTotalOrder(TripleLess)
  {
  }

  /** less is a strict weak order: comparing (planIdx, -major, -minor) lexicographically. */
  lemma LessOrder()
    ensures StrictWeakOrder(Less)
  {
    TripleLessOrder();
    KeyedWeakOrder(Less, Key, TripleLess);
  }

  /** In a sorted list the plans never go back, and within a plan the major release never goes up. */
  lemma SortedByPlanThenRelease(files: seq<OpenapiFile>, i: nat, j: nat)
    requires SortedBy(files, Less)
    requires i < j < |files|
    ensures files[i].planIdx <= files[j].planIdx
    ensures files[i].planIdx == files[j].planIdx ==> files[i].releaseMajor >= files[j].releaseMajor
    ensures files[i].planIdx == files[j].planIdx && files[i].releaseMajor == files[j].releaseMajor
      ==> files[i].releaseMinor >= files[j].releaseMinor
  {
    assert !Less(files[j], files[i]);
  }

  // ---------------------------------------------------------------------
  // Properties of the classification

  /** A directory is kept exactly when some pattern matches it, unless that match is a GHES release before 3. */
  lemma {:induction false} ClassifyKeeps(name: string, i: nat)
    requires i <= |PlanNames|
    ensures ClassifyFrom(name, i).None? <==>
      forall j :: i <= j < |PlanNames| && MatchPattern(name, PlanNames[j]).Some?
        ==> PlanNames[j] == "ghes" && Atoi(MatchPattern(name, PlanNames[j]).value.0) < 3
    decreases |PlanNames| - i
  {
    if i < |PlanNames| {
      ClassifyKeeps(name, i + 1);
    }
  }

  /** A GHES directory before release 3, bare "ghes" included, is dropped. */
  lemma OldGhesDropped(name: string)
    requires MatchPattern(name, "ghes").Some? && Atoi(MatchPattern(name, "ghes").value.0) < 3
    ensures Classify(name).None?
  {
    assert !HasPrefix(name, "api.github.com");
    assert !HasPrefix(name, "ghec");
  }

  lemma BareGhesDropped()
    ensures Classify("ghes").None?
  {
    OldGhesDropped("ghes");
  }

  /** A bare plan name other than ghes is kept with release 0.0. */
  lemma BarePlanKept(i: nat)
    requires i < 2
    ensures Classify(PlanNames[i]) == Some(OpenapiFile(DescriptionFilename(PlanNames[i]), PlanNames[i], i, 0, 0))
  {
    var name := PlanNames[i];
    assert name[|name|..] == "";
    if i == 1 {
      assert !HasPrefix(name, "api.github.com");
    }
  }

  /** The directory name of a release parses back to that release. */
  lemma VersionedPlanKept(i: nat, major: nat, minor: nat)
    requires i < |PlanNames|
    requires major <= MaxInt && minor <= MaxInt
    requires PlanNames[i] == "ghes" ==> major >= 3
    ensures Classify(PlanNames[i] + "-" + NatToString(major) + "." + NatToString(minor))
         == Some(OpenapiFile(DescriptionFilename(PlanNames[i] + "-" + NatToString(major) + "." + NatToString(minor)),
                             PlanNames[i], i, major, minor))
  {
    DigitsOfNat(major);
    DigitsOfNat(minor);
    VersionedNameKept(i, NatToString(major), NatToString(minor));
  }

  /** A plan followed by "-major.minor" is kept under that plan (unless it is a GHES release before 3). */
  lemma VersionedNameKept(i: nat, ma: string, mi: string)
    requires i < |PlanNames|
    requires |ma| > 0 && |mi| > 0 && AllDigits(ma) && AllDigits(mi)
    requires PlanNames[i] == "ghes" ==> Atoi(ma) >= 3
    ensures Classify(PlanNames[i] + "-" + ma + "." + mi)
         == Some(OpenapiFile(DescriptionFilename(PlanNames[i] + "-" + ma + "." + mi), PlanNames[i], i, Atoi(ma), Atoi(mi)))
  {
    var tail := "-" + ma + "." + mi;
    var name := PlanNames[i] + "-" + ma + "." + mi;
    TailAssoc(PlanNames[i], ma, mi);
    VersionMatches(PlanNames[i], ma, mi);
    if i >= 1 {
      DiffersAt(PlanNames[i] + tail, "api.github.com", if i == 1 then 1 else 0);
      ClassifySkip(name, 0);
    }
    if i == 2 {
      DiffersAt(PlanNames[i] + tail, "ghec", 3);
      ClassifySkip(name, 1);
    }
    ClassifyHit(name, i);
  }

  lemma TailAssoc(plan: string, ma: string, mi: string)
    ensures plan + "-" + ma + "." + mi == plan + ("-" + ma + "." + mi)
  {
  }

  /** A text that differs from `p` at position `k` does not start with `p`. */
  lemma DiffersAt(s: string, p: string, k: nat)
    requires k < |p| && k < |s| && s[k] != p[k]
    ensures !HasPrefix(s, p)
  {
    if |p| <= |s| {
      assert s[..|p|][k] == s[k];
    }
  }

  /** A pattern that does not match passes the name on to the next one. */
  lemma ClassifySkip(name: string, j: nat)
    requires j < |PlanNames| && MatchPattern(name, PlanNames[j]).None?
    ensures ClassifyFrom(name, j) == ClassifyFrom(name, j + 1)
  {
  }

  /** A pattern that matches, and is not an old GHES release, keeps the name. */
  lemma ClassifyHit(name: string, i: nat)
    requires i < |PlanNames| && MatchPattern(name, PlanNames[i]).Some?
    requires PlanNames[i] == "ghes" ==> Atoi(MatchPattern(name, PlanNames[i]).value.0) >= 3
    ensures ClassifyFrom(name, i)
         == Some(OpenapiFile(DescriptionFilename(name), PlanNames[i], i,
                             Atoi(MatchPattern(name, PlanNames[i]).value.0), Atoi(MatchPattern(name, PlanNames[i]).value.1)))
  {
  }

  /** A plan followed by "-major.minor" matches that plan's pattern with those submatches. */
  lemma VersionMatches(plan: string, ma: string, mi: string)
    requires |ma| > 0 && |mi| > 0 && AllDigits(ma) && AllDigits(mi)
    ensures MatchPattern(plan + "-" + ma + "." + mi, plan) == Some((ma, mi))
  {
    var name := plan + "-" + ma + "." + mi;
    assert name[..|plan|] == plan;
    var rest := name[|plan|..];
    assert rest == "-" + ma + "." + mi;
    assert rest[1..] == ma + "." + mi;
    assert '.' !in ma by {
      assert forall k :: 0 <= k < |ma| ==> IsDigit(ma[k]);
    }
    CutAtFirst(ma, mi, '.');
  }

}
