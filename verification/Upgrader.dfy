/** The platform upgrader: one upgrade job, run step by step with every external outcome free,
    and what the `.env` file holds at each point at which the process may stop. */
module Upgrader {
  import opened Text
  import opened EnvFile

  // ---------------------------------------------------------------- replacing the file

  /** What the file system does with one writeEnv. The writer ignores the result of each Fprintf, so
      a line can reach the temporary file only in part (`cuts` says how much of which line) and the
      file is renamed into place all the same. */
  datatype WriteOutcome =
    | OpenFailed
    | CloseFailed
    | RenameFailed
    | Renamed(cuts: seq<nat>)

  function Line(lines: seq<string>, i: nat): string
    requires i < |lines|
  {
    lines[i] + "\n"
  }

  /** The bytes of line `i` that arrive. */
  function Arriving(lines: seq<string>, i: nat, cuts: seq<nat>): (r: string)
    requires i < |lines|
    ensures r <= Line(lines, i)
  {
    if i < |cuts| && cuts[i] < |Line(lines, i)| then Line(lines, i)[..cuts[i]] else Line(lines, i)
  }

  /** The first `n` lines as they arrive. */
  function Written(lines: seq<string>, n: nat, cuts: seq<nat>): string
    requires n <= |lines|
  {
    if n == 0 then "" else Written(lines, n - 1, cuts) + Arriving(lines, n - 1, cuts)
  }

  /** No line is cut short. */
  predicate Uncut(lines: seq<string>, cuts: seq<nat>) {
    forall i :: 0 <= i < |lines| ==> i >= |cuts| || cuts[i] >= |lines[i]| + 1
  }

  lemma {:induction false} WrittenUncut(lines: seq<string>, n: nat, cuts: seq<nat>)
    requires n <= |lines|
    ensures |Written(lines, n, cuts)| <= |Unlines(lines[..n])|
    ensures Written(lines, n, cuts) == Unlines(lines[..n]) <==>
            forall i :: 0 <= i < n ==> i >= |cuts| || cuts[i] >= |lines[i]| + 1
  {
    if n > 0 {
      WrittenUncut(lines, n - 1, cuts);
      assert lines[..n] == lines[..n - 1] + [lines[n - 1]];
      UnlinesAppend(lines[..n - 1], lines[n - 1]);
      var a, b := Written(lines, n - 1, cuts), Arriving(lines, n - 1, cuts);
      var c, d := Unlines(lines[..n - 1]), Line(lines, n - 1);
      assert Unlines(lines[..n]) == c + d && |b| <= |d|;
      assert |b| == |d| <==> b == d;
      if a + b == c + d {
        assert |a| == |c| && |b| == |d|;
        assert a == (a + b)[..|a|] == c;
      }
    }
  }

  lemma {:induction false} UnlinesAppend(ls: seq<string>, l: string)
    ensures Unlines(ls + [l]) == Unlines(ls) + (l + "\n")
  {
    if ls == [] {
      assert Unlines([]) == "" && Unlines([l]) == l + "\n" + Unlines([]);
    } else {
      assert (ls + [l])[1..] == ls[1..] + [l];
      UnlinesAppend(ls[1..], l);
    }
  }

  /** The text renamed into place. */
  ghost function FileOf(m: Values, cuts: seq<nat>): string {
    Written(PrintedLines(m), |PrintedLines(m)|, cuts)
  }

  /** The file after a rename is the configuration meant to be written exactly when no line was cut. */
  lemma RenamedWholeIff(m: Values, cuts: seq<nat>)
    ensures FileOf(m, cuts) == Printed(m) <==> Uncut(PrintedLines(m), cuts)
  {
    hide PrintedLines, Printable;
    var lines := PrintedLines(m);
    WrittenUncut(lines, |lines|, cuts);
    assert lines[..|lines|] == lines;
  }

  /** When the disk is full every write can fail, and the file renamed into place is then empty: no
      variable of the old or of the new configuration is left in it. */
  lemma FullDiskEmpties(m: Values)
    ensures exists cuts :: FileOf(m, cuts) == ""
    ensures Parse("") == Ok(map[])
  {
    var lines := PrintedLines(m);
    var cuts: seq<nat> := seq(|lines|, _ => 0);
    NothingWritten(lines, |lines|, cuts);
    assert FileOf(m, cuts) == "";
    assert RawLines("") == [];
  }

  lemma {:induction false} NothingWritten(lines: seq<string>, n: nat, cuts: seq<nat>)
    requires n <= |lines| && n <= |cuts| && forall i :: 0 <= i < n ==> cuts[i] == 0
    ensures Written(lines, n, cuts) == ""
  {
    if n > 0 { NothingWritten(lines, n - 1, cuts); }
  }

  // ---------------------------------------------------------------- the configuration

  /** The variables an upgrade switches. In the combined layout the two image keys are one. */
  datatype Layout = Layout(apiKey: string, frontendKey: string, frontendService: bool)

  const UPGRADER_KEY := "PLATFORM_UPGRADER_IMAGE"
  const EXECUTOR_KEY := "REGISTRATION_EXECUTOR_IMAGE"
  const VERSION_KEY := "RELEASE_VERSION"

  function ResolveLayout(layout: string): Layout {
    if layout == "combined" then Layout("PLATFORM_IMAGE", "PLATFORM_IMAGE", false)
    else Layout("PLATFORM_API_IMAGE", "PLATFORM_FRONTEND_IMAGE", true)
  }

  /** A Go map lookup: a missing key reads as the empty string. */
  function Lookup(m: Values, k: string): string {
    if k in m then m[k] else ""
  }

  datatype Images = Images(api: string, frontend: string, upgrader: string, executor: string, version: string)

  /** What `values` holds for the switched variables. */
  function ImagesOf(m: Values, l: Layout): Images {
    Images(Lookup(m, l.apiKey), Lookup(m, l.frontendKey), Lookup(m, UPGRADER_KEY), Lookup(m, EXECUTOR_KEY), Lookup(m, VERSION_KEY))
  }

  /** The assignments of the switch and of the rollback, in their order. */
  function Assign(m: Values, l: Layout, i: Images): Values {
    m[l.apiKey := i.api][l.frontendKey := i.frontend][UPGRADER_KEY := i.upgrader][EXECUTOR_KEY := i.executor][VERSION_KEY := i.version]
  }

  /** Rolling back restores every lookup, whatever was switched and whichever keys coincide. */
  lemma RollbackRestoresLookups(m: Values, l: Layout, i: Images, k: string)
    ensures Lookup(Assign(Assign(m, l, i), l, ImagesOf(m, l)), k) == Lookup(m, k)
  {
  }

  /** The restored map can be printed: it binds nothing but what was read, and perhaps an empty version. */
  lemma RestoredPrintable(m: Values, l: Layout, i: Images)
    requires AllPrintable(m)
    requires l.apiKey in m && l.frontendKey in m && UPGRADER_KEY in m && EXECUTOR_KEY in m
    ensures AllPrintable(Assign(Assign(m, l, i), l, ImagesOf(m, l)))
  {
    hide Printable;
    assert Printable(VERSION_KEY, "") by { VersionPrintable(); }
    var r := Assign(Assign(m, l, i), l, ImagesOf(m, l));
    forall k | k in r ensures Printable(k, r[k]) {
      RollbackRestoresLookups(m, l, i, k);
    }
  }

  lemma VersionPrintable()
    ensures Printable(VERSION_KEY, "")
  {
    hide ByteLen;
    var line := EntryLine(VERSION_KEY, "");
    assert line == "RELEASE_VERSION=";
    AsciiLen(line);
  }

  lemma {:induction false} AsciiLen(s: string)
    requires forall i :: 0 <= i < |s| ==> s[i] as int < 0x80
    ensures ByteLen(s) == |s|
  {
    if s != [] { AsciiLen(s[1..]); }
  }

  // ---------------------------------------------------------------- one run

  datatype Job = Job(apiImage: string, frontendImage: string, targetVersion: string)

  /** The manifest entries the run looks up in the target release; empty when missing. */
  datatype Release = Release(upgraderImage: string, executorImage: string)

  /** How the database, the file system, docker and the health checks answer during one run. */
  datatype Outcomes = Outcomes(
    envOpens: bool, releasesListed: bool, release: Release,
    backupDir: bool, backupFile: bool, dump: bool,
    pullApi: bool, pullFrontend: bool, pullUpgrader: bool, pullExecutor: bool,
    switchWrite: WriteOutcome, rollbackWrite: WriteOutcome,
    apiUp: bool, apiHealthy: bool, executorUp: bool, frontendUp: bool,
    healthy: bool, manifest: bool, activated: bool)

  datatype Phase = Untouched | Switched | RolledBack

  datatype Verdict = Running | Failed(step: string) | Succeeded

  /** The run gets as far as replacing `.env`. */
  predicate ReachesSwitch(values: Values, l: Layout, job: Job, o: Outcomes) {
    var i := ImagesOf(values, l);
    && i.api != "" && i.frontend != "" && i.upgrader != "" && i.executor != ""
    && o.releasesListed && o.release.upgraderImage != "" && o.release.executorImage != ""
    && o.backupDir && o.backupFile && o.dump && o.pullApi
    && (job.frontendImage == job.apiImage || o.pullFrontend) && o.pullUpgrader && o.pullExecutor
  }

  /** Everything after the switch works. */
  predicate Completes(l: Layout, o: Outcomes) {
    && o.apiUp && o.apiHealthy && o.executorUp && (l.frontendService ==> o.frontendUp)
    && o.healthy && o.manifest && o.activated
  }

  function Target(job: Job, o: Outcomes): Images {
    Images(job.apiImage, job.frontendImage, o.release.upgraderImage, o.release.executorImage, job.targetVersion)
  }

  function SwitchedValues(values: Values, l: Layout, job: Job, o: Outcomes): Values {
    Assign(values, l, Target(job, o))
  }

  function RestoredValues(values: Values, l: Layout, job: Job, o: Outcomes): Values {
    Assign(SwitchedValues(values, l, job, o), l, ImagesOf(values, l))
  }

  ghost function PhaseOf(text: string, layout: string, job: Job, o: Outcomes): Phase {
    var l := ResolveLayout(layout);
    if o.envOpens && Parse(text).Ok? && ReachesSwitch(Parse(text).value, l, job, o) && o.switchWrite.Renamed? then
      if Completes(l, o) then Switched else RolledBack
    else Untouched
  }

  ghost function AfterSwitch(text: string, layout: string, job: Job, o: Outcomes): string {
    if PhaseOf(text, layout, job, o) == Untouched then text
    else FileOf(SwitchedValues(Parse(text).value, ResolveLayout(layout), job, o), o.switchWrite.cuts)
  }

  ghost function AfterRun(text: string, layout: string, job: Job, o: Outcomes): string {
    if PhaseOf(text, layout, job, o) == RolledBack && o.rollbackWrite.Renamed?
    then FileOf(RestoredValues(Parse(text).value, ResolveLayout(layout), job, o), o.rollbackWrite.cuts)
    else AfterSwitch(text, layout, job, o)
  }

  /** Everything that comes before the replacement of `.env` works, in terms of the variables found in it. */
  ghost predicate GetsToSwitch(m: Values, combined: bool, job: Job, o: Outcomes) {
    && (if combined then Lookup(m, "PLATFORM_IMAGE") != "" else Lookup(m, "PLATFORM_API_IMAGE") != "" && Lookup(m, "PLATFORM_FRONTEND_IMAGE") != "")
    && Lookup(m, "PLATFORM_UPGRADER_IMAGE") != "" && Lookup(m, "REGISTRATION_EXECUTOR_IMAGE") != ""
    && o.releasesListed && o.release.upgraderImage != "" && o.release.executorImage != ""
    && o.backupDir && o.backupFile && o.dump
    && o.pullApi && (job.frontendImage != job.apiImage ==> o.pullFrontend) && o.pullUpgrader && o.pullExecutor
    && o.switchWrite.Renamed?
  }

  /** A run switches if and only if the file can be read, every image is known before and after, and the dump,
      the pulls and the write work; it stays switched if and only if all restarts, health waits and activations
      work too, the frontend's in the split layout only. */
  lemma PhaseIff(text: string, layout: string, job: Job, o: Outcomes)
    ensures var switches := o.envOpens && Parse(text).Ok? && GetsToSwitch(Parse(text).value, layout == "combined", job, o);
            var works := o.apiUp && o.apiHealthy && o.executorUp && (layout != "combined" ==> o.frontendUp) && o.healthy && o.manifest && o.activated;
            && (PhaseOf(text, layout, job, o) == Untouched <==> !switches)
            && (PhaseOf(text, layout, job, o) == Switched <==> switches && works)
            && (PhaseOf(text, layout, job, o) == Untouched ==> AfterRun(text, layout, job, o) == text)
  {
    hide Parse, FileOf;
  }

  /** A run that succeeds with its file written in full, in the split layout: the file reads back with the API
      and the frontend at the job's images, the upgrader and the executor at the release's, the version at the
      target, and every other variable as before. */
  lemma SplitSwitchHolds(text: string, layout: string, job: Job, o: Outcomes)
    requires layout != "combined" && PhaseOf(text, layout, job, o) == Switched
    requires Uncut(PrintedLines(SwitchedValues(Parse(text).value, ResolveLayout(layout), job, o)), o.switchWrite.cuts)
    requires Printable("PLATFORM_API_IMAGE", job.apiImage) && Printable("PLATFORM_FRONTEND_IMAGE", job.frontendImage)
    requires Printable("PLATFORM_UPGRADER_IMAGE", o.release.upgraderImage) && Printable("REGISTRATION_EXECUTOR_IMAGE", o.release.executorImage)
    requires Printable("RELEASE_VERSION", job.targetVersion)
    ensures var before, after := Parse(text).value, Parse(AfterRun(text, layout, job, o));
            && after.Ok?
            && Lookup(after.value, "PLATFORM_API_IMAGE") == job.apiImage && Lookup(after.value, "PLATFORM_FRONTEND_IMAGE") == job.frontendImage
            && Lookup(after.value, "PLATFORM_UPGRADER_IMAGE") == o.release.upgraderImage
            && Lookup(after.value, "REGISTRATION_EXECUTOR_IMAGE") == o.release.executorImage
            && Lookup(after.value, "RELEASE_VERSION") == job.targetVersion
            && forall k ::
                 (k != "PLATFORM_API_IMAGE" && k != "PLATFORM_FRONTEND_IMAGE" && k != "PLATFORM_UPGRADER_IMAGE"
                  && k != "REGISTRATION_EXECUTOR_IMAGE" && k != "RELEASE_VERSION") ==> Lookup(after.value, k) == Lookup(before, k)
  {
    hide Printable, Parse, PrintedLines, Written, Uncut, FileOf;
    ParsePrintable(text);
    SwitchedReads(text, layout, job, o);
  }

  /** The same in the combined layout, where one variable stands for both images and holds the frontend's. */
  lemma CombinedSwitchHolds(text: string, job: Job, o: Outcomes)
    requires PhaseOf(text, "combined", job, o) == Switched
    requires Uncut(PrintedLines(SwitchedValues(Parse(text).value, ResolveLayout("combined"), job, o)), o.switchWrite.cuts)
    requires Printable("PLATFORM_IMAGE", job.frontendImage)
    requires Printable("PLATFORM_UPGRADER_IMAGE", o.release.upgraderImage) && Printable("REGISTRATION_EXECUTOR_IMAGE", o.release.executorImage)
    requires Printable("RELEASE_VERSION", job.targetVersion)
    ensures var before, after := Parse(text).value, Parse(AfterRun(text, "combined", job, o));
            && after.Ok? && Lookup(after.value, "PLATFORM_IMAGE") == job.frontendImage
            && Lookup(after.value, "PLATFORM_UPGRADER_IMAGE") == o.release.upgraderImage
            && Lookup(after.value, "REGISTRATION_EXECUTOR_IMAGE") == o.release.executorImage
            && Lookup(after.value, "RELEASE_VERSION") == job.targetVersion
            && forall k :: k != "PLATFORM_IMAGE" && k != "PLATFORM_UPGRADER_IMAGE" && k != "REGISTRATION_EXECUTOR_IMAGE" && k != "RELEASE_VERSION" ==>
                 Lookup(after.value, k) == Lookup(before, k)
  {
    hide Printable, Parse, PrintedLines, Written, Uncut, FileOf;
    ParsePrintable(text);
    SwitchedReads(text, "combined", job, o);
  }

  lemma SwitchedReads(text: string, layout: string, job: Job, o: Outcomes)
    requires PhaseOf(text, layout, job, o) == Switched
    requires Uncut(PrintedLines(SwitchedValues(Parse(text).value, ResolveLayout(layout), job, o)), o.switchWrite.cuts)
    requires AllPrintable(SwitchedValues(Parse(text).value, ResolveLayout(layout), job, o))
    ensures Parse(AfterRun(text, layout, job, o)) == EnvFile.Ok(SwitchedValues(Parse(text).value, ResolveLayout(layout), job, o))
  {
    hide AllPrintable, Parse, PrintedLines, Written, Uncut, SwitchedValues;
    var switched := SwitchedValues(Parse(text).value, ResolveLayout(layout), job, o);
    PrintedParses(switched);
    RenamedWholeIff(switched, o.switchWrite.cuts);
  }

  /** A run that fails after the switch and whose rollback is written in full leaves a file that reads
      back with every lookup at its value before the upgrade, in either layout. */
  lemma RollbackLeavesOldLookups(text: string, layout: string, job: Job, o: Outcomes, k: string)
    requires PhaseOf(text, layout, job, o) == RolledBack && o.rollbackWrite.Renamed?
    requires Uncut(PrintedLines(RestoredValues(Parse(text).value, ResolveLayout(layout), job, o)), o.rollbackWrite.cuts)
    ensures var after := Parse(AfterRun(text, layout, job, o));
            after.Ok? && Lookup(after.value, k) == Lookup(Parse(text).value, k)
  {
    hide Printable, Parse, PrintedLines, Written, Uncut;
    var m, l := Parse(text).value, ResolveLayout(layout);
    var restored := RestoredValues(m, l, job, o);
    ParsePrintable(text);
    RestoredPrintable(m, l, Target(job, o));
    PrintedParses(restored);
    RenamedWholeIff(restored, o.rollbackWrite.cuts);
    RollbackRestoresLookups(m, l, Target(job, o), k);
  }

  /** With no write cut short, `.env` is at every point the file found, the switched configuration or
      the restored one, each of them whole. */
  lemma WholeAtEveryPoint(trail: seq<string>, text: string, layout: string, job: Job, o: Outcomes, at: nat)
    requires at < |trail| && InOrder(trail, text, AfterSwitch(text, layout, job, o), AfterRun(text, layout, job, o))
    requires var m, l := Parse(text), ResolveLayout(layout);
             m.Ok? ==>
               && (o.switchWrite.Renamed? ==> Uncut(PrintedLines(SwitchedValues(m.value, l, job, o)), o.switchWrite.cuts))
               && (o.rollbackWrite.Renamed? ==> Uncut(PrintedLines(RestoredValues(m.value, l, job, o)), o.rollbackWrite.cuts))
    ensures trail[at] == text || (Parse(text).Ok? && (
              || trail[at] == Printed(SwitchedValues(Parse(text).value, ResolveLayout(layout), job, o))
              || trail[at] == Printed(RestoredValues(Parse(text).value, ResolveLayout(layout), job, o))))
  {
    hide Parse, PrintedLines, Written, Uncut, SwitchedValues, RestoredValues, ResolveLayout;
    if Parse(text).Ok? {
      var m, l := Parse(text).value, ResolveLayout(layout);
      if o.switchWrite.Renamed? { RenamedWholeIff(SwitchedValues(m, l, job, o), o.switchWrite.cuts); }
      if o.rollbackWrite.Renamed? { RenamedWholeIff(RestoredValues(m, l, job, o), o.rollbackWrite.cuts); }
    }
  }

  class Deployment {
    /** The `.env` file on disk. */
    var env: string
    /** What `.env` held after every step so far: a crash leaves the last of them. */
    var trail: seq<string>
    var verdict: Verdict

    constructor (text: string)
      ensures env == text && trail == [text] && verdict == Running
    {
      env, trail, verdict := text, [text], Running;
    }

    /** A step that leaves `.env` alone. */
    method Note()
      modifies this`trail
      ensures trail == old(trail) + [env]
    {
      trail := trail + [env];
    }

    method WriteEnv(values: Values, outcome: WriteOutcome) returns (ok: bool)
      modifies this`env, this`trail
      ensures ok == outcome.Renamed?
      ensures env == if ok then FileOf(values, outcome.cuts) else old(env)
      ensures trail == old(trail) + [env]
    {
      if outcome.OpenFailed? {
        Note();
        return false;
      }
      var lines := EmitLines(values);
      var tmp := "";
      for i := 0 to |lines|
        invariant outcome.Renamed? ==> tmp == Written(lines, i, outcome.cuts)
        invariant env == old(env) && trail == old(trail)
      {
        tmp := tmp + if outcome.Renamed? then Arriving(lines, i, outcome.cuts) else Line(lines, i);
      }
      if !outcome.Renamed? {
        Note();
        return false;
      }
      env := tmp;
      Note();
      ok := true;
    }

    /** Upgrades the deployment. `.env` changes at most twice, each time as a whole: from the text
        found to the switched configuration, and on a failure after that to the restored one. */
    method Run(layout: string, job: Job, o: Outcomes) returns (ghost phase: Phase)
      requires trail == [env]
      modifies this
      ensures phase == PhaseOf(old(env), layout, job, o)
      ensures verdict == Succeeded <==> phase == Switched
      ensures verdict == Failed("rolled_back") <==> phase == RolledBack
      ensures verdict != Running
      ensures phase == Untouched ==>
                verdict == Failed("prechecking") || verdict == Failed("backing_up") || verdict == Failed("pulling") || verdict == Failed("switching_api")
      ensures verdict == Failed("switching_api") ==> !o.switchWrite.Renamed?
      ensures InOrder(trail, old(env), AfterSwitch(old(env), layout, job, o), AfterRun(old(env), layout, job, o))
      ensures env == AfterRun(old(env), layout, job, o)
    {
      hide Parse, FileOf, Printed, ResolveLayout, Assign, ImagesOf, Target;
      phase := Untouched;
      assert Stretch(trail, 0, 1, env) && Stretch(trail, 1, 1, env);
      if !o.envOpens {
        verdict := Failed("prechecking");
        return;
      }
      var read := ReadEnv(env);
      if read.TooLong? {
        verdict := Failed("prechecking");
        return;
      }
      var values := read.value;
      var l := ResolveLayout(layout);
      var before := ImagesOf(values, l);
      var early := Precheck(before, job, o);
      assert Stretch(trail, 0, |trail|, env);
      if early.Failed? {
        verdict := early;
        assert Stretch(trail, |trail|, |trail|, env);
        return;
      }
      values := Assign(values, l, Target(job, o));
      ghost var i := |trail|;
      var switched := WriteEnv(values, o.switchWrite);
      if !switched {
        verdict := Failed("switching_api");
        assert Stretch(trail, 0, |trail|, env) && Stretch(trail, |trail|, |trail|, env);
        return;
      }
      var good := SwitchServices(l, o);
      ghost var j := |trail|;
      assert Stretch(trail, 0, i, old(env)) && Stretch(trail, i, j, env) && Stretch(trail, j, j, env);
      if good {
        phase := Switched;
        verdict := Succeeded;
        return;
      }
      phase := RolledBack;
      ghost var switchedTo := env;
      values := Assign(values, l, before);
      var _ := WriteEnv(values, o.rollbackWrite);
      Note();
      verdict := Failed("rolled_back");
      assert Stretch(trail, 0, i, old(env)) && Stretch(trail, i, j, switchedTo) && Stretch(trail, j, |trail|, env);
    }

    /** The checks, the database dump and the pulls that come before `.env` is touched. */
    method Precheck(before: Images, job: Job, o: Outcomes) returns (v: Verdict)
      modifies this`trail
      ensures exists n :: trail == old(trail) + Times(env, n)
      ensures v == Running || v == Failed("prechecking") || v == Failed("backing_up") || v == Failed("pulling")
      ensures v != Failed("prechecking") <==>
              && before.api != "" && before.frontend != "" && before.upgrader != "" && before.executor != ""
              && o.releasesListed && o.release.upgraderImage != "" && o.release.executorImage != ""
      ensures v == Failed("backing_up") <==> v != Failed("prechecking") && !(o.backupDir && o.backupFile && o.dump)
      ensures v == Running <==>
              && before.api != "" && before.frontend != "" && before.upgrader != "" && before.executor != ""
              && o.releasesListed && o.release.upgraderImage != "" && o.release.executorImage != ""
              && o.backupDir && o.backupFile && o.dump && o.pullApi
              && (job.frontendImage == job.apiImage || o.pullFrontend) && o.pullUpgrader && o.pullExecutor
    {
      assert trail == trail + Times(env, 0);
      if before.api == "" || before.frontend == "" || before.upgrader == "" || before.executor == "" {
        return Failed("prechecking");
      }
      if !o.releasesListed {
        return Failed("prechecking");
      }
      if o.release.upgraderImage == "" || o.release.executorImage == "" {
        return Failed("prechecking");
      }
      Note();
      assert trail == old(trail) + Times(env, 1);
      if !o.backupDir || !o.backupFile || !o.dump {
        return Failed("backing_up");
      }
      Note();
      assert trail == old(trail) + Times(env, 2);
      if !o.pullApi {
        return Failed("pulling");
      }
      if job.frontendImage != job.apiImage {
        if !o.pullFrontend {
          return Failed("pulling");
        }
      }
      if !o.pullUpgrader || !o.pullExecutor {
        return Failed("pulling");
      }
      v := Running;
    }

    /** Restarting, verifying and activating; stops at the first thing that fails. */
    method SwitchServices(l: Layout, o: Outcomes) returns (good: bool)
      modifies this`trail
      ensures exists n :: trail == old(trail) + Times(env, n)
      ensures good == Completes(l, o)
    {
      assert trail == trail + Times(env, 0);
      if !o.apiUp || !o.apiHealthy || !o.executorUp {
        return false;
      }
      Note();
      assert trail == old(trail) + Times(env, 1);
      if l.frontendService {
        if !o.frontendUp {
          return false;
        }
      }
      Note();
      assert trail == old(trail) + Times(env, 2);
      if !o.healthy || !o.manifest || !o.activated {
        return false;
      }
      good := true;
    }
  }

  function Times(x: string, n: nat): (r: seq<string>)
    ensures |r| == n && forall i :: 0 <= i < n ==> r[i] == x
  {
    seq(n, _ => x)
  }

  ghost predicate Stretch(trail: seq<string>, lo: int, hi: int, x: string) {
    0 <= lo <= hi <= |trail| && forall k :: lo <= k < hi ==> trail[k] == x
  }

  /** First only `a`, then only `b`, then only `c`. */
  ghost predicate InOrder(trail: seq<string>, a: string, b: string, c: string) {
    exists i, j :: Stretch(trail, 0, i, a) && Stretch(trail, i, j, b) && Stretch(trail, j, |trail|, c)
  }
}
