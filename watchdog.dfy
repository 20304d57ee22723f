/**
 * The watchdog's evidence audit (tiangong/core/watchdog.py): the
 * workspace path-safety check, the deny-command screen, the required-field
 * check, and the ruling that turns the collected reasons into a PASS, WARN
 * or BLOCK verdict with suggested actions.
 *
 * Reading files and hashing them, and `Path.resolve`, are inputs: a digest
 * check arrives as its outcome, and `resolve` maps a path string to the
 * normalised absolute path it names (or to the text of the exception that
 * resolving it raises).
 */
module Watchdog {
  import opened Wrappers
  import Text

  datatype Verdict = Pass | Warn | Block

  /** What `Path(p).resolve()` gives: a normalised absolute path, or the exception's text. */
  datatype Resolution = Resolved(path: string) | ResolveFailed(message: string)

  /** The `pathSafety` object of an evidence submission; a missing key reads as "" or []. */
  datatype PathSafety = PathSafety(pwd: string, repoRoot: string, changedFiles: seq<string>)

  /** The outcome of `_verify_digest` on one file. */
  datatype DigestCheck = DigestOk | FileNotFound | DigestMismatch

  /** `EvidenceInfo`; "" stands for an absent or empty string, `None` for an empty `pathSafety`. */
  datatype EvidenceInfo = EvidenceInfo(evidencePath: string, patchPath: string, evidenceDigest: string,
                                       patchDigest: string, pathSafety: Option<PathSafety>)

  /** The `details` dictionary; each key is present only when its step found something. */
  datatype Details = Details(missingFields: Option<seq<string>>, evidenceDigestError: Option<string>,
                             patchDigestError: Option<string>, pathSafetyIssues: Option<seq<string>>,
                             checkPassed: bool)

  datatype VerdictResult = VerdictResult(verdict: Verdict, reasons: seq<string>,
                                         suggestedActions: seq<string>, details: Details)

  /**
   * How a resolved path is tested for lying under the resolved repository
   * root: `Prefix` is the plain string-prefix test of the source, which also
   * admits a sibling such as "/repo-evil" for "/repo"; `Component` admits
   * only the root itself and paths below it.
   */
  datatype Containment = Prefix | Component

  /**
   * How a required-field name is matched against a field: `DataclassName`
   * compares with the attribute name only ("evidence_digest"), as the
   * source does; `EitherName` also accepts the submission's own spelling
   * ("evidenceDigest"), which is how the default list is written.
   */
  datatype FieldMatch = DataclassName | EitherName

  datatype Reading = Reading(containment: Containment, matching: FieldMatch)

  /** The checks as the source performs them. */
  const SourceReading := Reading(Prefix, DataclassName)
  /** The checks as they are evidently meant; the audit below uses these. */
  const Intended := Reading(Component, EitherName)

  function Listed<T>(o: Option<T>): (r: seq<T>)
    ensures |r| <= 1
  {
    if o.Some? then [o.value] else []
  }

  // ---------------------------------------------------------------------
  // Path safety
  // ---------------------------------------------------------------------

  predicate IsAbsolute(p: string) {
    |p| > 0 && p[0] == '/'
  }

  /** `Path(root, f)` for a relative `f`. */
  function JoinPath(root: string, f: string): string {
    if f == "" then root
    else if root == "" then f
    else if root[|root| - 1] == '/' then root + f
    else root + "/" + f
  }

  /** The path a changed file is resolved from: itself when absolute, else joined to the root. */
  function FileTarget(root: string, f: string): string {
    if IsAbsolute(f) then f else JoinPath(root, f)
  }

  predicate Contained(c: Containment, path: string, root: string) {
    match c
    case Prefix => Text.StartsWith(path, root)
    case Component =>
      path == root || Text.StartsWith(path, if root != "" && root[|root| - 1] == '/' then root else root + "/")
  }

  /** The component test never admits a path the prefix test refuses. */
  lemma ComponentWithinPrefix(path: string, root: string)
    ensures Contained(Component, path, root) ==> Contained(Prefix, path, root)
  {
    var sep := if root != "" && root[|root| - 1] == '/' then root else root + "/";
    if path != root && Text.StartsWith(path, sep) {
      assert path[..|root|] == sep[..|root|];
    }
  }

  /** The issue the `pwd` check reports, if any. */
  function PwdIssue(c: Containment, ps: PathSafety, resolve: string -> Resolution): Option<string> {
    var pwd := resolve(ps.pwd);
    if pwd.ResolveFailed? then Some("pwd resolve error: " + pwd.message)
    else
      var root := resolve(ps.repoRoot);
      if root.ResolveFailed? then Some("pwd resolve error: " + root.message)
      else if !Contained(c, pwd.path, root.path) then Some("pwd outside repo: " + ps.pwd)
      else None
  }

  /** The issue one changed file raises, if any. */
  function FileIssue(c: Containment, root: string, f: string, resolve: string -> Resolution): Option<string> {
    var full := resolve(FileTarget(root, f));
    var base := resolve(root);
    if full.ResolveFailed? || base.ResolveFailed? then Some("changed file resolve error: " + f)
    else if !Contained(c, full.path, base.path) then Some("changed file outside repo: " + f)
    else None
  }

  function FileIssues(c: Containment, root: string, files: seq<string>, resolve: string -> Resolution): (r: seq<string>)
    ensures |r| <= |files|
    decreases |files|
  {
    if files == [] then []
    else FileIssues(c, root, files[..|files| - 1], resolve) + Listed(FileIssue(c, root, files[|files| - 1], resolve))
  }

  /** Every issue `_check_path_safety` reports, in order. */
  function PathIssues(c: Containment, ps: PathSafety, resolve: string -> Resolution): seq<string> {
    Listed(PwdIssue(c, ps, resolve)) + FileIssues(c, ps.repoRoot, ps.changedFiles, resolve)
  }

  /** `target` and the root both resolve, and the first lies under the second. */
  ghost predicate Settled(c: Containment, root: string, target: string, resolve: string -> Resolution) {
    resolve(target).Resolved? && resolve(root).Resolved? && Contained(c, resolve(target).path, resolve(root).path)
  }

  /** The workspace a report describes is safe: the working directory and every changed file lie under the root. */
  ghost predicate WorkspaceSafe(c: Containment, ps: PathSafety, resolve: string -> Resolution) {
    && Settled(c, ps.repoRoot, ps.pwd, resolve)
    && forall i :: 0 <= i < |ps.changedFiles| ==> Settled(c, ps.repoRoot, FileTarget(ps.repoRoot, ps.changedFiles[i]), resolve)
  }

  /** The `pwd` half of `_check_path_safety`. */
  method CheckPwd(ps: PathSafety, resolve: string -> Resolution) returns (issue: Option<string>)
    ensures issue == PwdIssue(Component, ps, resolve)
  {
    issue := None;
    var pwd := resolve(ps.pwd);
    if pwd.ResolveFailed? {
      issue := Some("pwd resolve error: " + pwd.message);
    } else {
      var root := resolve(ps.repoRoot);
      if root.ResolveFailed? {
        issue := Some("pwd resolve error: " + root.message);
      } else if !Contained(Component, pwd.path, root.path) {
        issue := Some("pwd outside repo: " + ps.pwd);
      }
    }
  }

  /** One pass of the changed-file loop of `_check_path_safety`. */
  method CheckFile(root: string, f: string, resolve: string -> Resolution) returns (issue: Option<string>)
    ensures issue == FileIssue(Component, root, f, resolve)
  {
    issue := None;
    var full := if IsAbsolute(f) then resolve(f) else resolve(JoinPath(root, f));
    var base := resolve(root);
    if full.ResolveFailed? || base.ResolveFailed? {
      issue := Some("changed file resolve error: " + f);
    } else if !Contained(Component, full.path, base.path) {
      issue := Some("changed file outside repo: " + f);
    }
  }

  /** `_check_path_safety` */
  method CheckPathSafety(ps: PathSafety, resolve: string -> Resolution) returns (ok: bool, issues: seq<string>)
    ensures issues == PathIssues(Component, ps, resolve)
    ensures ok <==> issues == []
  {
    var pwdIssue := CheckPwd(ps, resolve);
    var fileIssues := CheckFiles(ps.repoRoot, ps.changedFiles, resolve);
    issues := Listed(pwdIssue) + fileIssues;
    ok := |issues| == 0;
  }

  /** The changed-file loop of `_check_path_safety`. */
  method CheckFiles(root: string, files: seq<string>, resolve: string -> Resolution) returns (issues: seq<string>)
    ensures issues == FileIssues(Component, root, files, resolve)
  {
    issues := [];
    var i := 0;
    while i < |files|
      invariant 0 <= i <= |files|
      invariant issues == FileIssues(Component, root, files[..i], resolve)
    {
      var issue := CheckFile(root, files[i], resolve);
      FileIssuesStep(Component, root, files, i, resolve);
      if issue.Some? {
        issues := issues + [issue.value];
      }
      i := i + 1;
    }
    assert files[..i] == files;
  }

  lemma FileIssuesStep(c: Containment, root: string, files: seq<string>, i: nat, resolve: string -> Resolution)
    requires i < |files|
    ensures FileIssues(c, root, files[..i + 1], resolve) == FileIssues(c, root, files[..i], resolve) + Listed(FileIssue(c, root, files[i], resolve))
  {
    assert files[..i + 1][..i] == files[..i];
  }

  /** An issue is reported for the files exactly when one of them raises it. */
  lemma FileIssuesSpec(c: Containment, root: string, files: seq<string>, resolve: string -> Resolution)
    ensures forall x :: x in FileIssues(c, root, files, resolve) <==>
      exists i :: 0 <= i < |files| && FileIssue(c, root, files[i], resolve) == Some(x)
  {
    forall x | x in FileIssues(c, root, files, resolve)
      ensures exists i :: 0 <= i < |files| && FileIssue(c, root, files[i], resolve) == Some(x)
    {
      FileIssuesSound(c, root, files, resolve, x);
    }
    forall x, i | 0 <= i < |files| && FileIssue(c, root, files[i], resolve) == Some(x)
      ensures x in FileIssues(c, root, files, resolve)
    {
      FileIssuesComplete(c, root, files, resolve, i);
    }
  }

  /** Every reported issue is raised by one of the files. */
  lemma {:induction false} FileIssuesSound(c: Containment, root: string, files: seq<string>, resolve: string -> Resolution, x: string)
    requires x in FileIssues(c, root, files, resolve)
    ensures exists i :: 0 <= i < |files| && FileIssue(c, root, files[i], resolve) == Some(x)
    decreases |files|
  {
    var n := |files| - 1;
    var init := files[..n];
    var last := FileIssue(c, root, files[n], resolve);
    assert FileIssues(c, root, files, resolve) == FileIssues(c, root, init, resolve) + Listed(last);
    if x in FileIssues(c, root, init, resolve) {
      FileIssuesSound(c, root, init, resolve, x);
      var i :| 0 <= i < |init| && FileIssue(c, root, init[i], resolve) == Some(x);
      assert files[i] == init[i];
    } else {
      assert last == Some(x);
    }
  }

  /** Every issue a file raises is reported. */
  lemma {:induction false} FileIssuesComplete(c: Containment, root: string, files: seq<string>, resolve: string -> Resolution, i: nat)
    requires i < |files| && FileIssue(c, root, files[i], resolve).Some?
    ensures FileIssue(c, root, files[i], resolve).value in FileIssues(c, root, files, resolve)
    decreases |files|
  {
    var n := |files| - 1;
    var init := files[..n];
    var last := FileIssue(c, root, files[n], resolve);
    assert FileIssues(c, root, files, resolve) == FileIssues(c, root, init, resolve) + Listed(last);
    if i < n {
      assert files[i] == init[i];
      FileIssuesComplete(c, root, init, resolve, i);
    }
  }

  lemma FileIssueNone(c: Containment, root: string, f: string, resolve: string -> Resolution)
    ensures FileIssue(c, root, f, resolve).None? <==> Settled(c, root, FileTarget(root, f), resolve)
  {
  }

  /** The path check passes exactly when the workspace it describes is safe. */
  lemma PathSafeIff(c: Containment, ps: PathSafety, resolve: string -> Resolution)
    ensures PathIssues(c, ps, resolve) == [] <==> WorkspaceSafe(c, ps, resolve)
  {
    var files := ps.changedFiles;
    FileIssuesSpec(c, ps.repoRoot, files, resolve);
    var none := forall i :: 0 <= i < |files| ==> FileIssue(c, ps.repoRoot, files[i], resolve).None?;
    forall i | 0 <= i < |files| {
      FileIssueNone(c, ps.repoRoot, files[i], resolve);
    }
    if FileIssues(c, ps.repoRoot, files, resolve) != [] {
      var x := FileIssues(c, ps.repoRoot, files, resolve)[0];
      assert x in FileIssues(c, ps.repoRoot, files, resolve);
      assert !none;
    }
  }

  /** The report names a working directory or a changed file that resolves outside the root. */
  ghost predicate Escapes(c: Containment, ps: PathSafety, resolve: string -> Resolution) {
    var base := resolve(ps.repoRoot);
    && base.Resolved?
    && ((resolve(ps.pwd).Resolved? && !Contained(c, resolve(ps.pwd).path, base.path))
        || exists i :: 0 <= i < |ps.changedFiles| &&
             var full := resolve(FileTarget(ps.repoRoot, ps.changedFiles[i]));
             full.Resolved? && !Contained(c, full.path, base.path))
  }

  lemma {:induction false} ContainsShifted(p: string, s: string, sub: string)
    requires Text.Contains(s, sub)
    ensures Text.Contains(p + s, sub)
    decreases |p|
  {
    if p != [] {
      assert (p + s)[1..] == p[1..] + s;
      ContainsShifted(p[1..], s, sub);
    } else {
      assert p + s == s;
    }
  }

  /** `lead + "outside repo: " + tail` says "outside repo". */
  lemma OutsideMessage(lead: string, tail: string)
    ensures Text.Contains(lead + "outside repo: " + tail, "outside repo")
  {
    Text.ContainsWithin([], "outside repo", ": " + tail);
    assert [] + "outside repo" + (": " + tail) == "outside repo: " + tail;
    ContainsShifted(lead, "outside repo: " + tail, "outside repo");
    assert lead + ("outside repo: " + tail) == lead + "outside repo: " + tail;
  }

  /** An escape is reported as an issue that says "outside repo". */
  lemma EscapeReported(c: Containment, ps: PathSafety, resolve: string -> Resolution)
    requires Escapes(c, ps, resolve)
    ensures exists x :: x in PathIssues(c, ps, resolve) && Text.Contains(x, "outside repo")
  {
    var base := resolve(ps.repoRoot);
    if resolve(ps.pwd).Resolved? && !Contained(c, resolve(ps.pwd).path, base.path) {
      var x := "pwd " + "outside repo: " + ps.pwd;
      OutsideMessage("pwd ", ps.pwd);
      assert x == "pwd outside repo: " + ps.pwd;
      assert !resolve(ps.pwd).ResolveFailed?;
      assert !resolve(ps.repoRoot).ResolveFailed?;
      assert PwdIssue(c, ps, resolve) == Some(x);
      assert x in PathIssues(c, ps, resolve);
    } else {
      var i :| 0 <= i < |ps.changedFiles| &&
        var full := resolve(FileTarget(ps.repoRoot, ps.changedFiles[i]));
        full.Resolved? && !Contained(c, full.path, base.path);
      FileEscapeReported(c, ps.repoRoot, ps.changedFiles, i, resolve);
    }
  }

  lemma FileEscapeReported(c: Containment, root: string, files: seq<string>, i: nat, resolve: string -> Resolution)
    requires i < |files| && resolve(root).Resolved?
    requires var full := resolve(FileTarget(root, files[i]));
      full.Resolved? && !Contained(c, full.path, resolve(root).path)
    ensures exists x :: x in FileIssues(c, root, files, resolve) && Text.Contains(x, "outside repo")
  {
    var x := "changed file " + "outside repo: " + files[i];
    OutsideMessage("changed file ", files[i]);
    assert x == "changed file outside repo: " + files[i];
    assert FileIssue(c, root, files[i], resolve) == Some(x);
    FileIssuesSpec(c, root, files, resolve);
  }

  // ---------------------------------------------------------------------
  // Deny commands
  // ---------------------------------------------------------------------

  /** The issues one command raises: one per deny prefix it starts with. */
  function CommandIssues(cmd: string, deny: seq<string>): seq<string>
    decreases |deny|
  {
    if deny == [] then []
    else CommandIssues(cmd, deny[..|deny| - 1])
         + (if Text.StartsWith(cmd, deny[|deny| - 1]) then ["deny command: " + cmd] else [])
  }

  /** Every issue `_check_deny_commands` reports for the commands' `cmd` strings, in order. */
  function DenyIssues(commands: seq<string>, deny: seq<string>): seq<string>
    decreases |commands|
  {
    if commands == [] then []
    else DenyIssues(commands[..|commands| - 1], deny) + CommandIssues(commands[|commands| - 1], deny)
  }

  /** `_check_deny_commands`; each command is given by its `cmd` value ("" when absent). */
  method CheckDenyCommands(commands: seq<string>, deny: seq<string>) returns (ok: bool, issues: seq<string>)
    ensures issues == DenyIssues(commands, deny)
    ensures ok <==> issues == []
  {
    issues := [];
    var i := 0;
    while i < |commands|
      invariant 0 <= i <= |commands|
      invariant issues == DenyIssues(commands[..i], deny)
    {
      var found := CheckCommand(commands[i], deny);
      issues := issues + found;
      assert commands[..i + 1][..i] == commands[..i];
      i := i + 1;
    }
    assert commands[..i] == commands;
    ok := |issues| == 0;
  }

  /** The inner loop of `_check_deny_commands`: one command against every deny prefix. */
  method CheckCommand(cmd: string, deny: seq<string>) returns (found: seq<string>)
    ensures found == CommandIssues(cmd, deny)
  {
    found := [];
    var j := 0;
    while j < |deny|
      invariant 0 <= j <= |deny|
      invariant found == CommandIssues(cmd, deny[..j])
    {
      if Text.StartsWith(cmd, deny[j]) {
        found := found + ["deny command: " + cmd];
      }
      assert deny[..j + 1][..j] == deny[..j];
      j := j + 1;
    }
    assert deny[..j] == deny;
  }

  /** A command's issues are all the same message, one for each deny prefix it starts with. */
  lemma {:induction false} CommandIssuesSpec(cmd: string, deny: seq<string>)
    ensures forall x :: x in CommandIssues(cmd, deny) ==> x == "deny command: " + cmd
    ensures CommandIssues(cmd, deny) == [] <==> forall j :: 0 <= j < |deny| ==> !Text.StartsWith(cmd, deny[j])
    decreases |deny|
  {
    if deny != [] {
      var init := deny[..|deny| - 1];
      CommandIssuesSpec(cmd, init);
      if CommandIssues(cmd, deny) == [] {
        forall j | 0 <= j < |deny|
          ensures !Text.StartsWith(cmd, deny[j])
        {
          if j < |init| {
            assert deny[j] == init[j];
          }
        }
      }
    }
  }

  /**
   * The screen reports nothing exactly when no command starts with a deny
   * prefix, and every issue names a command that does.
   */
  lemma {:induction false} DenyIssuesSpec(commands: seq<string>, deny: seq<string>)
    ensures DenyIssues(commands, deny) == [] <==>
      forall i, j :: 0 <= i < |commands| && 0 <= j < |deny| ==> !Text.StartsWith(commands[i], deny[j])
    ensures forall x :: x in DenyIssues(commands, deny) ==>
      exists i, j :: 0 <= i < |commands| && 0 <= j < |deny| && Text.StartsWith(commands[i], deny[j]) && x == "deny command: " + commands[i]
    decreases |commands|
  {
    if commands != [] {
      var init := commands[..|commands| - 1];
      var last := commands[|commands| - 1];
      DenyIssuesSpec(init, deny);
      CommandIssuesSpec(last, deny);
      if DenyIssues(commands, deny) == [] {
        forall i, j | 0 <= i < |commands| && 0 <= j < |deny|
          ensures !Text.StartsWith(commands[i], deny[j])
        {
          if i < |init| {
            assert commands[i] == init[i];
          }
        }
      } else {
        if DenyIssues(init, deny) != [] {
          var i, j :| 0 <= i < |init| && 0 <= j < |deny| && !!Text.StartsWith(init[i], deny[j]);
          assert commands[i] == init[i];
        }
      }
      forall x | x in DenyIssues(commands, deny)
        ensures exists i, j :: 0 <= i < |commands| && 0 <= j < |deny| && Text.StartsWith(commands[i], deny[j]) && x == "deny command: " + commands[i]
      {
        if x in DenyIssues(init, deny) {
          var i, j :| 0 <= i < |init| && 0 <= j < |deny| && Text.StartsWith(init[i], deny[j]) && x == "deny command: " + init[i];
          assert commands[i] == init[i];
        } else {
          assert x in CommandIssues(last, deny);
          var j :| 0 <= j < |deny| && Text.StartsWith(last, deny[j]);
          assert commands[|commands| - 1] == last;
        }
      }
    }
  }

  /** With no deny prefixes configured the screen never reports anything. */
  lemma EmptyDenyListAllows(commands: seq<string>)
    ensures DenyIssues(commands, []) == []
  {
    DenyIssuesSpec(commands, []);
  }

  // ---------------------------------------------------------------------
  // Required fields
  // ---------------------------------------------------------------------

  /** The dataclass's field names, in declaration order. */
  const FieldNames: seq<string> := ["evidence_path", "patch_path", "evidence_digest", "patch_digest", "path_safety"]
  /** The same fields as an evidence submission spells them. */
  const WireNames: seq<string> := ["evidencePath", "patchPath", "evidenceDigest", "patchDigest", "pathSafety"]
  /** The required-field list used when the configuration gives none. */
  const DefaultRequired: seq<string> := WireNames

  /** The configured required fields when non-empty, otherwise the default list. */
  function RequiredFields(configured: seq<string>): seq<string> {
    if configured == [] then DefaultRequired else configured
  }

  /** Field `k` holds no value: "" (or None), or an empty `path_safety`. */
  predicate FieldEmpty(ev: EvidenceInfo, k: nat)
    requires k < |FieldNames|
  {
    if k == 0 then ev.evidencePath == ""
    else if k == 1 then ev.patchPath == ""
    else if k == 2 then ev.evidenceDigest == ""
    else if k == 3 then ev.patchDigest == ""
    else ev.pathSafety.None?
  }

  predicate Demanded(m: FieldMatch, required: seq<string>, k: nat)
    requires k < |FieldNames|
  {
    FieldNames[k] in required || (m == EitherName && WireNames[k] in required)
  }

  /** The missing fields among the first `n`, by dataclass name. */
  function MissingAmong(m: FieldMatch, ev: EvidenceInfo, required: seq<string>, n: nat): (r: seq<string>)
    requires n <= |FieldNames|
    ensures forall x :: x in r ==> x in FieldNames
    decreases n
  {
    if n == 0 then []
    else MissingAmong(m, ev, required, n - 1)
         + (if Demanded(m, required, n - 1) && FieldEmpty(ev, n - 1) then [FieldNames[n - 1]] else [])
  }

  function MissingFields(m: FieldMatch, ev: EvidenceInfo, required: seq<string>): seq<string> {
    MissingAmong(m, ev, required, |FieldNames|)
  }

  /** The loop over `fields(evidence)` in `verify_evidence`. */
  method FindMissingFields(ev: EvidenceInfo, required: seq<string>) returns (missing: seq<string>)
    ensures missing == MissingFields(EitherName, ev, required)
  {
    missing := [];
    var k := 0;
    while k < |FieldNames|
      invariant 0 <= k <= |FieldNames|
      invariant missing == MissingAmong(EitherName, ev, required, k)
    {
      if (FieldNames[k] in required || WireNames[k] in required) && FieldEmpty(ev, k) {
        missing := missing + [FieldNames[k]];
      }
      k := k + 1;
    }
  }

  /** A field is reported missing exactly when it is demanded and holds no value. */
  lemma {:induction false} MissingAmongSpec(m: FieldMatch, ev: EvidenceInfo, required: seq<string>, n: nat)
    requires n <= |FieldNames|
    ensures forall k :: 0 <= k < n ==>
      (FieldNames[k] in MissingAmong(m, ev, required, n) <==> Demanded(m, required, k) && FieldEmpty(ev, k))
    decreases n
  {
    if n > 0 {
      MissingAmongSpec(m, ev, required, n - 1);
      MissingAmongBelow(m, ev, required, n - 1);
      assert FieldNames[n - 1] !in FieldNames[..n - 1];
    }
  }

  lemma {:induction false} MissingAmongBelow(m: FieldMatch, ev: EvidenceInfo, required: seq<string>, n: nat)
    requires n <= |FieldNames|
    ensures forall x :: x in MissingAmong(m, ev, required, n) ==> x in FieldNames[..n]
    decreases n
  {
    if n > 0 {
      MissingAmongBelow(m, ev, required, n - 1);
      assert forall x :: x in FieldNames[..n - 1] ==> x in FieldNames[..n];
    }
  }

  /** No value occurs twice. */
  ghost predicate Distinct<T>(s: seq<T>) {
    forall i, j :: 0 <= i < j < |s| ==> s[i] != s[j]
  }

  /** No field is reported twice. */
  lemma {:induction false} MissingDistinct(m: FieldMatch, ev: EvidenceInfo, required: seq<string>, n: nat)
    requires n <= |FieldNames|
    ensures Distinct(MissingAmong(m, ev, required, n))
    decreases n
  {
    if n > 0 {
      var prev := MissingAmong(m, ev, required, n - 1);
      MissingDistinct(m, ev, required, n - 1);
      if Demanded(m, required, n - 1) && FieldEmpty(ev, n - 1) {
        MissingAmongBelow(m, ev, required, n - 1);
        assert FieldNames[n - 1] !in FieldNames[..n - 1];
        DistinctAppend(prev, FieldNames[n - 1]);
        assert MissingAmong(m, ev, required, n) == prev + [FieldNames[n - 1]];
      } else {
        assert MissingAmong(m, ev, required, n) == prev;
      }
    }
  }

  /** Appending a new value to a list without repeats leaves it without repeats. */
  lemma DistinctAppend<T>(p: seq<T>, x: T)
    requires Distinct(p)
    requires x !in p
    ensures Distinct(p + [x])
  {
    var r := p + [x];
    forall i, j | 0 <= i < j < |r|
      ensures r[i] != r[j]
    {
      assert r[i] == p[i];
      if j == |p| {
        assert p[i] in p;
      } else {
        assert r[j] == p[j];
      }
    }
  }

  /** With the default list, every empty field of the submission is reported. */
  lemma MissingFieldsSpec(ev: EvidenceInfo)
    ensures forall k :: 0 <= k < |FieldNames| ==>
      (FieldNames[k] in MissingFields(EitherName, ev, DefaultRequired) <==> FieldEmpty(ev, k))
  {
    MissingAmongSpec(EitherName, ev, DefaultRequired, |FieldNames|);
    assert forall k :: 0 <= k < |WireNames| ==> WireNames[k] in DefaultRequired;
  }

  // ---------------------------------------------------------------------
  // The audit and its ruling
  // ---------------------------------------------------------------------

  function Quoted(xs: seq<string>): (r: seq<string>)
    ensures |r| == |xs|
    decreases |xs|
  {
    if xs == [] then [] else ["'" + xs[0] + "'"] + Quoted(xs[1..])
  }

  /** `str(xs)` for a list of strings without quotes in them. */
  function ListRepr(xs: seq<string>): string {
    "[" + Text.Join(", ", Quoted(xs)) + "]"
  }

  function DigestError(c: DigestCheck): string {
    match c
    case DigestOk => "ok"
    case FileNotFound => "file_not_found"
    case DigestMismatch => "digest_mismatch"
  }

  /** The patch check that counts: none is made (so none fails) when there is no patch path. */
  function PatchOutcome(ev: EvidenceInfo, patchCheck: DigestCheck): DigestCheck {
    if ev.patchPath == "" then DigestOk else patchCheck
  }

  /** `[x]` when `b` holds, else nothing. */
  function When(b: bool, x: string): seq<string> {
    if b then [x] else []
  }

  function MissingReasons(missing: seq<string>): seq<string> {
    if missing == [] then [] else ["missing required fields: " + ListRepr(missing)]
  }

  const EvidenceLead := "evidence digest error: "
  const PatchLead := "patch digest error: "

  function DigestReasons(lead: string, c: DigestCheck): seq<string> {
    if c == DigestOk then [] else [lead + DigestError(c)]
  }

  function Violations(issues: seq<string>): (r: seq<string>)
    ensures |r| == |issues|
    decreases |issues|
  {
    if issues == [] then [] else Violations(issues[..|issues| - 1]) + ["path_safety violation: " + issues[|issues| - 1]]
  }

  function WorkspaceIssues(c: Containment, ev: EvidenceInfo, resolve: string -> Resolution): seq<string> {
    if ev.pathSafety.Some? then PathIssues(c, ev.pathSafety.value, resolve) else []
  }

  predicate Mentions(reasons: seq<string>, needle: string) {
    exists r :: r in reasons && Text.Contains(r, needle)
  }

  /** Step 5 of `verify_evidence`: the verdict and the action it appends, if any. */
  function Ruling(reasons: seq<string>): (Verdict, Option<string>) {
    if reasons == [] then (Pass, None)
    else if Mentions(reasons, "deny command") then (Block, Some("halt_project"))
    else if Mentions(reasons, "outside repo") then (Block, Some("halt_project"))
    else if Mentions(reasons, "digest") then (Warn, Some("resubmit_evidence"))
    else (Warn, Some("investigate"))
  }

  /** `verify_evidence` under a reading of its two tests. */
  function Evaluation(rd: Reading, ev: EvidenceInfo, required: seq<string>, evidenceCheck: DigestCheck,
                      patchCheck: DigestCheck, resolve: string -> Resolution): VerdictResult
  {
    var missing := MissingFields(rd.matching, ev, required);
    var patch := PatchOutcome(ev, patchCheck);
    var issues := WorkspaceIssues(rd.containment, ev, resolve);
    var reasons := MissingReasons(missing) + DigestReasons(EvidenceLead, evidenceCheck)
                   + DigestReasons(PatchLead, patch) + Violations(issues);
    var actions := When(missing != [], "submit_complete_evidence") + When(evidenceCheck != DigestOk, "resubmit_evidence")
                   + When(patch != DigestOk, "resubmit_evidence") + When(issues != [], "check_workspace");
    var ruling := Ruling(reasons);
    VerdictResult(ruling.0, reasons, actions + Listed(ruling.1),
      Details(if missing != [] then Some(missing) else None,
              if evidenceCheck != DigestOk then Some(DigestError(evidenceCheck)) else None,
              if patch != DigestOk then Some(DigestError(patch)) else None,
              if issues != [] then Some(issues) else None,
              reasons == []))
  }

  /** Steps 1 to 3 of `verify_evidence`: required fields and the two digests. */
  method CheckFields(ev: EvidenceInfo, required: seq<string>, evidenceCheck: DigestCheck, patchCheck: DigestCheck)
    returns (reasons: seq<string>, actions: seq<string>, missingDetail: Option<seq<string>>,
             evidenceDetail: Option<string>, patchDetail: Option<string>)
    ensures var missing := MissingFields(EitherName, ev, required);
      && reasons == MissingReasons(missing) + DigestReasons(EvidenceLead, evidenceCheck)
                    + DigestReasons(PatchLead, PatchOutcome(ev, patchCheck))
      && actions == When(missing != [], "submit_complete_evidence") + When(evidenceCheck != DigestOk, "resubmit_evidence")
                    + When(PatchOutcome(ev, patchCheck) != DigestOk, "resubmit_evidence")
      && missingDetail == (if missing != [] then Some(missing) else None)
    ensures evidenceDetail == (if evidenceCheck != DigestOk then Some(DigestError(evidenceCheck)) else None)
    ensures var patch := PatchOutcome(ev, patchCheck);
      patchDetail == (if patch != DigestOk then Some(DigestError(patch)) else None)
  {
    reasons, actions := [], [];
    missingDetail, evidenceDetail, patchDetail := None, None, None;
    var missing := FindMissingFields(ev, required);
    if missing != [] {
      reasons := reasons + ["missing required fields: " + ListRepr(missing)];
      actions := actions + ["submit_complete_evidence"];
      missingDetail := Some(missing);
    }
    assert reasons == MissingReasons(missing) && actions == When(missing != [], "submit_complete_evidence");
    if evidenceCheck != DigestOk {
      reasons := reasons + [EvidenceLead + DigestError(evidenceCheck)];
      actions := actions + ["resubmit_evidence"];
      evidenceDetail := Some(DigestError(evidenceCheck));
    }
    assert reasons == MissingReasons(missing) + DigestReasons(EvidenceLead, evidenceCheck);
    assert actions == When(missing != [], "submit_complete_evidence") + When(evidenceCheck != DigestOk, "resubmit_evidence");
    if ev.patchPath != "" && patchCheck != DigestOk {
      reasons := reasons + [PatchLead + DigestError(patchCheck)];
      actions := actions + ["resubmit_evidence"];
      patchDetail := Some(DigestError(patchCheck));
    }
  }

  /** The loop that turns each path-safety issue into a reason. */
  method AddViolations(reasons: seq<string>, issues: seq<string>) returns (extended: seq<string>)
    ensures extended == reasons + Violations(issues)
  {
    extended := reasons;
    var i := 0;
    while i < |issues|
      invariant 0 <= i <= |issues|
      invariant extended == reasons + Violations(issues[..i])
    {
      extended := extended + ["path_safety violation: " + issues[i]];
      assert issues[..i + 1][..i] == issues[..i];
      i := i + 1;
    }
    assert issues[..i] == issues;
  }

  /**
   * `verify_evidence`, with the outcome of the two digest checks and the
   * path resolver as inputs; `patchCheck` is consulted only when there is a
   * patch path.
   */
  method VerifyEvidence(ev: EvidenceInfo, required: seq<string>, evidenceCheck: DigestCheck,
                        patchCheck: DigestCheck, resolve: string -> Resolution) returns (result: VerdictResult)
    ensures result == Evaluation(Intended, ev, required, evidenceCheck, patchCheck, resolve)
  {
    var reasons, actions, missingDetail, evidenceDetail, patchDetail := CheckFields(ev, required, evidenceCheck, patchCheck);
    var issuesDetail: Option<seq<string>> := None;
    if ev.pathSafety.Some? {
      var ok, issues := CheckPathSafety(ev.pathSafety.value, resolve);
      if !ok {
        reasons := AddViolations(reasons, issues);
        actions := actions + ["check_workspace"];
        issuesDetail := Some(issues);
      } else {
        assert reasons == reasons + Violations(issues);
      }
    }
    ghost var missing := MissingFields(EitherName, ev, required);
    ghost var issues := WorkspaceIssues(Component, ev, resolve);
    assert reasons == MissingReasons(missing) + DigestReasons(EvidenceLead, evidenceCheck)
                      + DigestReasons(PatchLead, PatchOutcome(ev, patchCheck)) + Violations(issues);
    assert actions == When(missing != [], "submit_complete_evidence") + When(evidenceCheck != DigestOk, "resubmit_evidence")
                      + When(PatchOutcome(ev, patchCheck) != DigestOk, "resubmit_evidence") + When(issues != [], "check_workspace");
    assert issuesDetail == (if issues != [] then Some(issues) else None);
    var ruling := Ruling(reasons);
    result := VerdictResult(ruling.0, reasons, actions + Listed(ruling.1),
      Details(missingDetail, evidenceDetail, patchDetail, issuesDetail, |reasons| == 0));
  }

  // Properties of the audit, under either reading.

  /** The words the ruling looks for, in one digest reason. */
  predicate DigestWords(r: string) {
    !Text.Contains(r, "deny command") && !Text.Contains(r, "outside repo") && Text.Contains(r, "digest")
  }

  lemma DigestWord(lead: string, error: string)
    requires lead == EvidenceLead || lead == PatchLead
    ensures Text.Contains(lead + error, "digest")
  {
    var front := if lead == EvidenceLead then "evidence " else "patch ";
    LeadsSay();
    Text.ContainsWithin(front, "digest", " error: " + error);
    AppendAssoc(front + "digest", " error: ", error);
  }

  lemma LeadsSay()
    ensures EvidenceLead == "evidence " + "digest" + " error: "
    ensures PatchLead == "patch " + "digest" + " error: "
  {
  }

  lemma AppendAssoc(a: string, b: string, c: string)
    ensures a + b + c == a + (b + c)
  {
  }

  /** A digest reason never says "deny command": it has no letter 'y'. */
  lemma DigestReasonLacksDenyCommand(lead: string, c: DigestCheck)
    requires lead == EvidenceLead || lead == PatchLead
    ensures !Text.Contains(lead + DigestError(c), "deny command")
  {
    assert 'y' !in lead;
    assert 'y' !in DigestError(c);
    Text.MissingCharNotContained(lead + DigestError(c), "deny command", 'y');
  }

  /** A digest-mismatch reason never says "outside repo": it has no letter 'u'. */
  lemma MismatchReasonLacksOutsideRepo(lead: string)
    requires lead == EvidenceLead || lead == PatchLead
    ensures !Text.Contains(lead + DigestError(DigestMismatch), "outside repo")
  {
    assert 'u' !in lead;
    Text.MissingCharNotContained(lead + DigestError(DigestMismatch), "outside repo", 'u');
  }

  /** The evidence file-not-found reason never says "outside repo": it has no letter 'p'. */
  lemma EvidenceMissingReasonLacksOutsideRepo()
    ensures !Text.Contains(EvidenceLead + DigestError(FileNotFound), "outside repo")
  {
    assert 'p' !in EvidenceLead + DigestError(FileNotFound);
    Text.MissingCharNotContained(EvidenceLead + DigestError(FileNotFound), "outside repo", 'p');
  }

  /** The patch file-not-found reason never says "outside repo": its only 'p' is its first letters' "patch". */
  lemma PatchMissingReasonLacksOutsideRepo()
    ensures !Text.Contains(PatchLead + DigestError(FileNotFound), "outside repo")
  {
    var r := PatchLead + DigestError(FileNotFound);
    assert r[10..] == PatchLead[10..] + "file_not_found";
    assert 'p' !in r[10..];
    Text.LateCharNotContained(r, "outside repo", 10);
  }

  /** Neither digest reason says "deny command" or "outside repo", and both say "digest". */
  lemma DigestReasonWords(lead: string, c: DigestCheck)
    requires lead == EvidenceLead || lead == PatchLead
    requires c != DigestOk
    ensures DigestWords(lead + DigestError(c))
  {
    DigestWord(lead, DigestError(c));
    DigestReasonLacksDenyCommand(lead, c);
    if c == DigestMismatch {
      MismatchReasonLacksOutsideRepo(lead);
    } else if lead == EvidenceLead {
      EvidenceMissingReasonLacksOutsideRepo();
    } else {
      PatchMissingReasonLacksOutsideRepo();
    }
  }

  lemma {:induction false} CharNotInJoin(c: char, sep: string, parts: seq<string>)
    requires c !in sep
    requires forall i :: 0 <= i < |parts| ==> c !in parts[i]
    ensures c !in Text.Join(sep, parts)
    decreases |parts|
  {
    if |parts| > 1 {
      CharNotInJoin(c, sep, parts[1..]);
    }
  }

  /** The missing-fields reason says neither "deny command" nor "outside repo": it has no letter 'o'. */
  lemma MissingReasonWords(missing: seq<string>)
    requires forall x :: x in missing ==> x in FieldNames
    ensures var r := "missing required fields: " + ListRepr(missing);
      !Text.Contains(r, "deny command") && !Text.Contains(r, "outside repo")
  {
    var q := Quoted(missing);
    forall i | 0 <= i < |q|
      ensures 'o' !in q[i]
    {
      QuotedAt(missing, i);
      QuotedFieldAvoidsReasonWords(missing[i]);
    }
    CharNotInJoin('o', ", ", q);
    var r := "missing required fields: " + ListRepr(missing);
    assert r == "missing required fields: [" + Text.Join(", ", q) + "]";
    Text.MissingCharNotContained(r, "deny command", 'o');
    Text.MissingCharNotContained(r, "outside repo", 'o');
  }

  /** A quoted required-field name has no 'o', a letter both "deny command" and "outside repo" hold. */
  lemma QuotedFieldAvoidsReasonWords(x: string)
    requires x in FieldNames
    ensures 'o' !in "'" + x + "'"
  {
  }

  lemma {:induction false} QuotedAt(xs: seq<string>, i: nat)
    requires i < |xs|
    ensures Quoted(xs)[i] == "'" + xs[i] + "'"
    decreases |xs|
  {
    if i > 0 {
      QuotedAt(xs[1..], i - 1);
    }
  }

  lemma {:induction false} ViolationsAt(issues: seq<string>, x: string)
    requires x in Violations(issues)
    ensures exists i :: 0 <= i < |issues| && x == "path_safety violation: " + issues[i]
    decreases |issues|
  {
    if x !in Violations(issues[..|issues| - 1]) {
      assert x == "path_safety violation: " + issues[|issues| - 1];
    } else {
      ViolationsAt(issues[..|issues| - 1], x);
      var i :| 0 <= i < |issues| - 1 && x == "path_safety violation: " + issues[..|issues| - 1][i];
    }
  }

  lemma {:induction false} ViolationsHas(issues: seq<string>, i: nat)
    requires i < |issues|
    ensures "path_safety violation: " + issues[i] in Violations(issues)
    decreases |issues|
  {
    if i < |issues| - 1 {
      ViolationsHas(issues[..|issues| - 1], i);
    }
  }

  /** The audit passes exactly when every check does, and a pass suggests nothing and records `check_passed`. */
  lemma PassIff(rd: Reading, ev: EvidenceInfo, required: seq<string>, evidenceCheck: DigestCheck,
                patchCheck: DigestCheck, resolve: string -> Resolution)
    ensures var r := Evaluation(rd, ev, required, evidenceCheck, patchCheck, resolve);
      r.verdict == Pass <==>
        && MissingFields(rd.matching, ev, required) == []
        && evidenceCheck == DigestOk
        && (ev.patchPath == "" || patchCheck == DigestOk)
        && (ev.pathSafety.None? || WorkspaceSafe(rd.containment, ev.pathSafety.value, resolve))
    ensures var r := Evaluation(rd, ev, required, evidenceCheck, patchCheck, resolve);
      r.verdict == Pass ==> r.suggestedActions == [] && r.details.checkPassed
  {
    if ev.pathSafety.Some? {
      PathSafeIff(rd.containment, ev.pathSafety.value, resolve);
    }
  }

  /** A working directory or changed file resolving outside the root blocks the project. */
  lemma EscapeBlocks(rd: Reading, ev: EvidenceInfo, required: seq<string>, evidenceCheck: DigestCheck,
                     patchCheck: DigestCheck, resolve: string -> Resolution)
    requires ev.pathSafety.Some? && Escapes(rd.containment, ev.pathSafety.value, resolve)
    ensures var r := Evaluation(rd, ev, required, evidenceCheck, patchCheck, resolve);
      r.verdict == Block && r.suggestedActions[|r.suggestedActions| - 1] == "halt_project"
  {
    var issues := WorkspaceIssues(rd.containment, ev, resolve);
    EscapeReported(rd.containment, ev.pathSafety.value, resolve);
    var x :| x in issues && Text.Contains(x, "outside repo");
    var i :| 0 <= i < |issues| && issues[i] == x;
    ViolationsHas(issues, i);
    var v := "path_safety violation: " + x;
    ContainsShifted("path_safety violation: ", x, "outside repo");
    var front := MissingReasons(MissingFields(rd.matching, ev, required)) + DigestReasons(EvidenceLead, evidenceCheck)
                 + DigestReasons(PatchLead, PatchOutcome(ev, patchCheck));
    var reasons := front + Violations(issues);
    EvaluationReasons(rd, ev, required, evidenceCheck, patchCheck, resolve);
    EvaluationRuling(rd, ev, required, evidenceCheck, patchCheck, resolve);
    assert v in reasons;
    RulingBlocks(reasons, v);
  }

  /** A reason saying "outside repo" makes the ruling BLOCK with `halt_project`. */
  lemma RulingBlocks(reasons: seq<string>, v: string)
    requires v in reasons && Text.Contains(v, "outside repo")
    ensures Ruling(reasons) == (Block, Some("halt_project"))
  {
    assert Mentions(reasons, "outside repo");
  }

  /** Only a workspace issue can block: the other reasons never say "deny command" or "outside repo". */
  lemma BlockNeedsWorkspaceIssue(rd: Reading, ev: EvidenceInfo, required: seq<string>, evidenceCheck: DigestCheck,
                                 patchCheck: DigestCheck, resolve: string -> Resolution)
    ensures Evaluation(rd, ev, required, evidenceCheck, patchCheck, resolve).verdict == Block ==>
      ev.pathSafety.Some? && PathIssues(rd.containment, ev.pathSafety.value, resolve) != []
  {
    var missing := MissingFields(rd.matching, ev, required);
    var patch := PatchOutcome(ev, patchCheck);
    if WorkspaceIssues(rd.containment, ev, resolve) == [] {
      var reasons := MissingReasons(missing) + DigestReasons(EvidenceLead, evidenceCheck) + DigestReasons(PatchLead, patch) + [];
      forall x | x in reasons
        ensures !Text.Contains(x, "deny command") && !Text.Contains(x, "outside repo")
      {
        if x in MissingReasons(missing) {
          MissingReasonWords(missing);
        } else if x in DigestReasons(EvidenceLead, evidenceCheck) {
          DigestReasonWords(EvidenceLead, evidenceCheck);
        } else {
          DigestReasonWords(PatchLead, patch);
        }
      }
      EvaluationReasons(rd, ev, required, evidenceCheck, patchCheck, resolve);
      EvaluationRuling(rd, ev, required, evidenceCheck, patchCheck, resolve);
      assert Violations([]) == [];
    }
  }

  /**
   * A submission whose only faults are digest failures is warned, and the
   * last suggested action is to resubmit the evidence.
   */
  lemma DigestOnlyWarns(rd: Reading, ev: EvidenceInfo, required: seq<string>, evidenceCheck: DigestCheck,
                        patchCheck: DigestCheck, resolve: string -> Resolution)
    requires MissingFields(rd.matching, ev, required) == []
    requires ev.pathSafety.None? || WorkspaceSafe(rd.containment, ev.pathSafety.value, resolve)
    requires evidenceCheck != DigestOk || (ev.patchPath != "" && patchCheck != DigestOk)
    ensures var r := Evaluation(rd, ev, required, evidenceCheck, patchCheck, resolve);
      r.verdict == Warn && r.suggestedActions[|r.suggestedActions| - 1] == "resubmit_evidence"
  {
    if ev.pathSafety.Some? {
      PathSafeIff(rd.containment, ev.pathSafety.value, resolve);
    }
    var patch := PatchOutcome(ev, patchCheck);
    var reasons := DigestReasons(EvidenceLead, evidenceCheck) + DigestReasons(PatchLead, patch);
    assert WorkspaceIssues(rd.containment, ev, resolve) == [];
    EvaluationReasons(rd, ev, required, evidenceCheck, patchCheck, resolve);
    assert MissingReasons([]) + reasons + Violations([]) == reasons;
    EvaluationRuling(rd, ev, required, evidenceCheck, patchCheck, resolve);
    DigestRuling(evidenceCheck, patch);
  }

  /** The reasons of the audit, in the order its steps add them. */
  lemma EvaluationReasons(rd: Reading, ev: EvidenceInfo, required: seq<string>, evidenceCheck: DigestCheck,
                          patchCheck: DigestCheck, resolve: string -> Resolution)
    ensures Evaluation(rd, ev, required, evidenceCheck, patchCheck, resolve).reasons ==
      MissingReasons(MissingFields(rd.matching, ev, required)) + DigestReasons(EvidenceLead, evidenceCheck)
      + DigestReasons(PatchLead, PatchOutcome(ev, patchCheck)) + Violations(WorkspaceIssues(rd.containment, ev, resolve))
  {
  }

  /** The verdict is the ruling on the reasons, and the action the ruling adds comes last. */
  lemma EvaluationRuling(rd: Reading, ev: EvidenceInfo, required: seq<string>, evidenceCheck: DigestCheck,
                         patchCheck: DigestCheck, resolve: string -> Resolution)
    ensures var r := Evaluation(rd, ev, required, evidenceCheck, patchCheck, resolve);
      && r.verdict == Ruling(r.reasons).0
      && (Ruling(r.reasons).1.Some? ==>
            r.suggestedActions != [] && r.suggestedActions[|r.suggestedActions| - 1] == Ruling(r.reasons).1.value)
  {
  }

  /** Digest reasons alone make the ruling WARN with `resubmit_evidence`. */
  lemma DigestRuling(evidenceCheck: DigestCheck, patch: DigestCheck)
    requires evidenceCheck != DigestOk || patch != DigestOk
    ensures Ruling(DigestReasons(EvidenceLead, evidenceCheck) + DigestReasons(PatchLead, patch)) == (Warn, Some("resubmit_evidence"))
  {
    var reasons := DigestReasons(EvidenceLead, evidenceCheck) + DigestReasons(PatchLead, patch);
    forall x | x in reasons
      ensures DigestWords(x)
    {
      if x in DigestReasons(EvidenceLead, evidenceCheck) {
        DigestReasonWords(EvidenceLead, evidenceCheck);
      } else {
        DigestReasonWords(PatchLead, patch);
      }
    }
    assert reasons[0] in reasons;
  }
}
