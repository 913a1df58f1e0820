/**
 * Next.js version logic of the Node.js buildpack (pkg/nodejs/nextjs.go):
 * the adaptor specifier derived from a declared Next.js version or range,
 * and the installed Next.js version read from the application's lockfiles.
 */
module NextJs {
  import opened Wrappers
  import opened GoStrings

  // ---------------------------------------------------------------------
  // Adaptor version (detectNextjsAdaptorVersion)
  // ---------------------------------------------------------------------

  /** A version accepted by the semver library's strict parser ("X.Y.Z[-pre][+build]"). */
  datatype SemVersion = SemVersion(major: nat, minor: nat, patch: nat, prerelease: string, metadata: string)

  /**
   * The two entry points of the Masterminds semver library that the core calls:
   * `StrictNewVersion`, and `NewConstraint` followed by `Constraint.String()`
   * (the normalised text of the parsed range). `None` is a parse error.
   */
  datatype Semver = Semver(
    strictNewVersion: string -> Option<SemVersion>,
    constraintText: string -> Option<string>)

  /**
   * The comparator segment of a three-segment clause after rewriting: a strict
   * `<` becomes `<=` unless the patch segment starts with "0", and a strict
   * `>` always becomes `>=`.
   */
  function RewriteComparator(head: string, patch: string): (r: string)
    ensures r == head || (|head| >= 1 && head[0] in "<>" && r == head[..1] + "=" + head[1..])
    ensures HasPrefix(head, "<") <==> HasPrefix(r, "<")
    ensures HasPrefix(head, ">") <==> HasPrefix(r, ">")
  {
    var head' := if HasPrefix(head, "<") && !HasPrefix(head, "<=") && !HasPrefix(patch, "0")
      then "<=" + head[1..] else head;
    if HasPrefix(head', ">") && !HasPrefix(head', ">=") then ">=" + head'[1..] else head'
  }

  /** One clause of the range after rewriting: three dot-separated segments lose the last one. */
  function RewriteClause(clause: string): (r: string)
  {
    var segments := Split(clause, ".");
    if |segments| == 3 then Join([RewriteComparator(segments[0], segments[2]), segments[1]], ".")
    else Join(segments, ".")
  }

  /** Every clause rewritten, in order. */
  function RewriteAll(clauses: seq<string>): (r: seq<string>)
    ensures |r| == |clauses|
    ensures forall i | 0 <= i < |clauses| :: r[i] == RewriteClause(clauses[i])
  {
    seq(|clauses|, i requires 0 <= i < |clauses| => RewriteClause(clauses[i]))
  }

  /**
   * `detectNextjsAdaptorVersion`: a strict version becomes "major.minor"; a
   * range is rewritten clause by clause and re-joined with single spaces,
   * one part per clause in the original order; anything else is "latest".
   */
  method DetectAdaptorVersion(semver: Semver, njsVersion: string) returns (r: string)
    ensures semver.strictNewVersion(njsVersion).Some? ==>
      var v := semver.strictNewVersion(njsVersion).value;
      r == FormatUint(v.major) + "." + FormatUint(v.minor)
    ensures semver.strictNewVersion(njsVersion).None? && semver.constraintText(njsVersion).None? ==>
      r == "latest"
    ensures semver.strictNewVersion(njsVersion).None? && semver.constraintText(njsVersion).Some? ==>
      Split(r, " ") == RewriteAll(Split(semver.constraintText(njsVersion).value, " "))
  {
    var version := semver.strictNewVersion(njsVersion);
    if version.Some? {
      return FormatUint(version.value.major) + "." + FormatUint(version.value.minor);
    }
    var constraint := semver.constraintText(njsVersion);
    if constraint.None? {
      return "latest";
    }
    var clauses := Split(constraint.value, " ");
    var newConstraints: seq<string> := [];
    for i := 0 to |clauses|
      invariant |newConstraints| == i
      invariant forall k | 0 <= k < i :: newConstraints[k] == RewriteClause(clauses[k])
    {
      var versionSplit := Split(clauses[i], ".");
      ghost var segments := versionSplit;
      if |versionSplit| == 3 {
        if HasPrefix(versionSplit[0], "<") && !HasPrefix(versionSplit[0], "<=")
          && !HasPrefix(versionSplit[|versionSplit| - 1], "0")
        {
          versionSplit := versionSplit[0 := "<=" + versionSplit[0][1..]];
        }
        if HasPrefix(versionSplit[0], ">") && !HasPrefix(versionSplit[0], ">=") {
          versionSplit := versionSplit[0 := ">=" + versionSplit[0][1..]];
        }
        versionSplit := versionSplit[..|versionSplit| - 1];
        assert versionSplit == [RewriteComparator(segments[0], segments[2]), segments[1]];
      }
      newConstraints := newConstraints + [Join(versionSplit, ".")];
    }
    r := Join(newConstraints, " ");
    assert newConstraints == RewriteAll(clauses);
    RewriteAllRoundTrip(constraint.value);
  }

  /** Splitting the space-joined rewrite of a range's clauses gives the rewritten clauses back. */
  lemma RewriteAllRoundTrip(text: string)
    ensures var rewritten := RewriteAll(Split(text, " "));
      Split(Join(rewritten, " "), " ") == rewritten
  {
    var clauses := Split(text, " ");
    var rewritten := RewriteAll(clauses);
    SplitPiecesWithout(text, ' ');
    forall c | c in rewritten ensures ' ' !in c {
      var k :| 0 <= k < |clauses| && c == RewriteClause(clauses[k]);
      assert clauses[k] in clauses;
      RewriteClauseKeepsCharOut(clauses[k], ' ');
    }
    SplitJoin(rewritten, ' ');
  }

  /** Rewriting a clause introduces no character other than '.', '<', '>' and '='. */
  lemma RewriteClauseKeepsCharOut(clause: string, d: char)
    requires d !in clause && d !in ".<>="
    ensures d !in RewriteClause(clause)
  {
    var segments := Split(clause, ".");
    SplitPiecesFrom(clause, ".", d);
    if |segments| == 3 {
      assert segments[0] in segments && segments[1] in segments;
      var head := segments[0];
      assert d !in head;
      assert forall i | 1 <= i < |head| :: head[1..][i - 1] == head[i];
      JoinWithout([RewriteComparator(segments[0], segments[2]), segments[1]], ".", d);
    } else {
      JoinWithout(segments, ".", d);
    }
  }

  /** A strict version maps to exactly its major and minor numbers, separated by one dot. */
  lemma {:induction false} StrictVersionAdaptor(v: SemVersion)
    ensures var r := FormatUint(v.major) + "." + FormatUint(v.minor);
      && Split(r, ".") == [FormatUint(v.major), FormatUint(v.minor)]
      && ParseUint(Split(r, ".")[0]) == v.major
      && ParseUint(Split(r, ".")[1]) == v.minor
  {
    var ma, mi := FormatUint(v.major), FormatUint(v.minor);
    assert '.' !in ma && '.' !in mi by {
      assert forall i | 0 <= i < |ma| :: '0' <= ma[i] <= '9';
      assert forall i | 0 <= i < |mi| :: '0' <= mi[i] <= '9';
    }
    SplitWithout(mi, '.');
    SplitAfter(ma, '.', mi);
    ParseFormatUint(v.major);
    ParseFormatUint(v.minor);
  }

  /** A clause with other than three segments passes through unchanged. */
  lemma RewriteClauseOtherSegments(clause: string)
    requires |Split(clause, ".")| != 3
    ensures RewriteClause(clause) == clause
  {
    JoinSplit(clause, ".");
  }

  /**
   * A three-segment clause "op M.m.p" becomes "op' M.m": the patch segment is
   * dropped and the comparator is rewritten as RewriteComparator says.
   */
  lemma RewriteClauseThreeSegments(clause: string)
    requires |Split(clause, ".")| == 3
    ensures var s := Split(clause, ".");
      RewriteClause(clause) == RewriteComparator(s[0], s[2]) + "." + s[1]
  {
    var s := Split(clause, ".");
    var pair := [RewriteComparator(s[0], s[2]), s[1]];
    assert RewriteClause(clause) == Join(pair, ".");
    assert pair[1..] == [s[1]];
    assert Join(pair, ".") == pair[0] + "." + Join(pair[1..], ".");
  }

  /** A strict `<` becomes `<=` exactly when the patch does not start with "0". */
  lemma StrictLessRewrite(head: string, patch: string)
    requires HasPrefix(head, "<") && !HasPrefix(head, "<=")
    ensures !HasPrefix(patch, "0") ==> RewriteComparator(head, patch) == "<=" + head[1..]
    ensures HasPrefix(patch, "0") ==> RewriteComparator(head, patch) == head
  {
  }

  /** A strict `>` always becomes `>=`. */
  lemma StrictGreaterRewrite(head: string, patch: string)
    requires HasPrefix(head, ">") && !HasPrefix(head, ">=")
    ensures RewriteComparator(head, patch) == ">=" + head[1..]
  {
  }

  /** Comparators that are not a strict `<` or `>` (`<=`, `>=`, `=`, `~`, `^`, none) are kept. */
  lemma OtherComparatorsKept(head: string, patch: string)
    requires !(HasPrefix(head, "<") && !HasPrefix(head, "<="))
    requires !(HasPrefix(head, ">") && !HasPrefix(head, ">="))
    ensures RewriteComparator(head, patch) == head
  {
  }

  /**
   * A clause "op.minor.patch" whose segments hold no dot becomes
   * "op'.minor", with op' the rewritten comparator segment.
   */
  lemma RewriteDottedClause(op: string, minor: string, patch: string)
    requires '.' !in op && '.' !in minor && '.' !in patch
    ensures RewriteClause(op + "." + minor + "." + patch) == RewriteComparator(op, patch) + "." + minor
  {
    SplitWithout(patch, '.');
    SplitAfter(minor, '.', patch);
    SplitAfter(op, '.', minor + "." + patch);
    assert op + "." + minor + "." + patch == op + "." + (minor + "." + patch);
    RewriteClauseThreeSegments(op + "." + minor + "." + patch);
  }

  /** "<14.0.15" becomes "<=14.0": a non-zero patch makes the bound inclusive. */
  lemma RewriteLessExample()
    ensures RewriteClause("<14.0.15") == "<=14.0"
  {
    var less, zero, fifteen := "<14", "0", "15";
    assert HasPrefix(less, "<") && !HasPrefix(less, "<=") by { assert less[..2][1] == '1'; }
    assert !HasPrefix(fifteen, "0") by { assert fifteen[..1][0] == '1'; }
    StrictLessRewrite(less, fifteen);
    assert RewriteComparator(less, fifteen) == "<=14" by { assert less[1..] == "14"; }
    assert "<14.0.15" == less + "." + zero + "." + fifteen;
    RewriteDottedClause(less, zero, fifteen);
  }

  /** "<14.0.0" keeps its strict "<" and becomes "<14.0". */
  lemma RewriteLessZeroExample()
    ensures RewriteClause("<14.0.0") == "<14.0"
  {
    var less, zero := "<14", "0";
    assert HasPrefix(less, "<") && !HasPrefix(less, "<=") by { assert less[..2][1] == '1'; }
    StrictLessRewrite(less, zero);
    assert "<14.0.0" == less + "." + zero + "." + zero;
    RewriteDottedClause(less, zero, zero);
  }

  /** ">13.0.2" becomes ">=13.0". */
  lemma RewriteGreaterExample()
    ensures RewriteClause(">13.0.2") == ">=13.0"
  {
    var more, zero, two := ">13", "0", "2";
    assert HasPrefix(more, ">") && !HasPrefix(more, ">=") by { assert more[..2][1] == '1'; }
    StrictGreaterRewrite(more, two);
    assert RewriteComparator(more, two) == ">=13" by { assert more[1..] == "13"; }
    assert ">13.0.2" == more + "." + zero + "." + two;
    RewriteDottedClause(more, zero, two);
  }

  // ---------------------------------------------------------------------
  // Installed version (Version)
  // ---------------------------------------------------------------------

  const PnpmLock := "pnpm-lock.yaml"
  const YarnLock := "yarn.lock"
  const NpmShrinkwrap := "npm-shrinkwrap.json"
  const PackageLock := "package-lock.json"

  /** The lockfiles consulted, in priority order. */
  const PossibleLockfileFilenames: seq<string> := [PnpmLock, YarnLock, NpmShrinkwrap, PackageLock]

  /** Go's map index on a string-valued map: a missing key reads as "". */
  function Lookup(m: map<string, string>, key: string): string {
    if key in m then m[key] else ""
  }

  /**
   * What `Version` sees of the application directory: the contents of each
   * lockfile `os.ReadFile` reads without error (any read error leaves the name
   * out), and the two decoders. `decodePnpm` gives `dependencies[name].version`
   * of a pnpm lockfile, `decodeNpm` gives `packages[key].version` of an npm
   * lockfile; `None` is a decode error.
   */
  datatype AppFiles = AppFiles(
    readable: map<string, string>,
    decodePnpm: string -> Option<map<string, string>>,
    decodeNpm: string -> Option<map<string, string>>)

  /** The outcome of `Version`: a version string, or the index-out-of-range panic of the yarn branch. */
  datatype Resolution = Resolved(version: string) | Panicked

  /** The pnpm version before its first "(" (the peer-dependency qualifier). */
  function BeforeParen(v: string): (r: string)
    ensures |r| <= |v| && r == v[..|r|]
    ensures '(' !in r
    ensures |r| < |v| ==> v[|r|] == '('
  {
    SplitFirst(v, '(');
    Split(v, "(")[0]
  }

  /** The first line that contains "version", if any. */
  function VersionLine(lines: seq<string>): (r: Option<string>)
    ensures r.Some? ==> r.value in lines && Contains(r.value, "version")
    ensures r.None? ==> forall l | l in lines :: !Contains(l, "version")
    ensures r.Some? ==> exists i | 0 <= i < |lines| ::
      (lines[i] == r.value && forall j | 0 <= j < i :: !Contains(lines[j], "version"))
  {
    if lines == [] then None
    else if Contains(lines[0], "version") then Some(lines[0])
    else
      var r := VersionLine(lines[1..]);
      if r.Some? then
        var i :| 0 <= i < |lines[1..]| && lines[1..][i] == r.value
          && forall j | 0 <= j < i :: !Contains(lines[1..][j], "version");
        assert lines[i + 1] == r.value;
        assert forall j | 1 <= j < i + 1 :: lines[j] == lines[1..][j - 1];
        r
      else r
  }

  /**
   * The second white-space field of a version line with every leading and
   * trailing quote removed; fewer than two fields panics.
   */
  function VersionField(line: string): (r: Resolution)
    ensures r.Panicked? <==> |Fields(line)| < 2
    ensures r.Resolved? ==>
      var f, v := Fields(line)[1], r.version;
      && (v == [] || (v[0] != '"' && v[|v| - 1] != '"'))
      && exists i | 0 <= i <= |f| - |v| ::
        && OccursAt(f, v, i)
        && (forall j | 0 <= j < i :: f[j] == '"')
        && (forall j | i + |v| <= j < |f| :: f[j] == '"')
  {
    var fields := Fields(line);
    if |fields| < 2 then Panicked else Resolved(Trim(fields[1], '"'))
  }

  /** A yarn.lock block describes the declared Next.js dependency. */
  predicate MatchesNext(block: string, declared: string) {
    Contains(block, "next@") && Contains(block, declared)
  }

  /** A yarn.lock block that matches and has a line containing "version" ends the scan. */
  predicate Decides(block: string, declared: string) {
    MatchesNext(block, declared) && VersionLine(Split(block, "\n")).Some?
  }

  /** What a deciding block gives: its first version line's second field, unquoted. */
  function BlockVersion(block: string): Resolution
    requires VersionLine(Split(block, "\n")).Some?
  {
    VersionField(VersionLine(Split(block, "\n")).value)
  }

  /**
   * The yarn.lock scan over the remaining blocks: the first block that matches
   * and has a line containing "version" decides (`YarnFirstMatchingBlock`);
   * `None` exactly when no block does (`YarnBlocksNone`).
   */
  function YarnBlocks(blocks: seq<string>, declared: string): Option<Resolution>
  {
    if blocks == [] then None
    else if Decides(blocks[0], declared) then Some(BlockVersion(blocks[0]))
    else YarnBlocks(blocks[1..], declared)
  }

  /** The yarn.lock text split into blank-line separated blocks, then scanned. */
  function YarnVersion(text: string, declared: string): Option<Resolution> {
    YarnBlocks(Split(text, "\n\n"), declared)
  }

  /** What one lockfile contributes: `None` means move on to the next one. */
  function LockfileYield(name: string, files: AppFiles, declared: string): (r: Option<Resolution>)
    ensures r.Some? ==> name in files.readable && name in PossibleLockfileFilenames
    ensures r.Some? && r.value.Panicked? ==> name == YarnLock
    ensures name == PnpmLock && name in files.readable ==>
      (r.Some? <==> files.decodePnpm(files.readable[name]).Some?)
    ensures (name == NpmShrinkwrap || name == PackageLock) && name in files.readable ==>
      (r.Some? <==> files.decodeNpm(files.readable[name]).Some?)
    ensures name == YarnLock && name in files.readable ==> r == YarnVersion(files.readable[name], declared)
  {
    if name !in files.readable then None
    else
      var raw := files.readable[name];
      if name == PnpmLock && files.decodePnpm(raw).Some? then
        Some(Resolved(BeforeParen(Lookup(files.decodePnpm(raw).value, "next"))))
      else if name == YarnLock && YarnVersion(raw, declared).Some? then
        YarnVersion(raw, declared)
      else if (name == NpmShrinkwrap || name == PackageLock) && files.decodeNpm(raw).Some? then
        Some(Resolved(Lookup(files.decodeNpm(raw).value, "node_modules/next")))
      else None
  }

  /** The lockfiles `names` consulted in order, falling back to the declared specifier. */
  function ResolveFrom(names: seq<string>, files: AppFiles, declared: string): Resolution
  {
    if names == [] then Resolved(declared)
    else match LockfileYield(names[0], files, declared)
      case Some(r) => r
      case None => ResolveFrom(names[1..], files, declared)
  }

  /** The installed Next.js version for a package.json whose dependencies are `deps`. */
  function InstalledVersion(files: AppFiles, deps: map<string, string>): Resolution {
    ResolveFrom(PossibleLockfileFilenames, files, Lookup(deps, "next"))
  }

  /** The yarn.lock scan: blocks split on blank lines, lines on newlines. */
  method ScanYarnLock(text: string, declared: string) returns (r: Option<Resolution>)
    ensures r == YarnVersion(text, declared)
  {
    var blocks := Split(text, "\n\n");
    for i := 0 to |blocks|
      invariant YarnBlocks(blocks, declared) == YarnBlocks(blocks[i..], declared)
    {
      assert blocks[i..][1..] == blocks[i + 1..];
      if Contains(blocks[i], "next@") && Contains(blocks[i], declared) {
        var lines := Split(blocks[i], "\n");
        for j := 0 to |lines|
          invariant VersionLine(lines) == VersionLine(lines[j..])
        {
          assert lines[j..][1..] == lines[j + 1..];
          if Contains(lines[j], "version") {
            var fields := Fields(lines[j]);
            if |fields| < 2 {
              return Some(Panicked);
            }
            return Some(Resolved(Trim(fields[1], '"')));
          }
        }
      }
    }
    return None;
  }

  /**
   * `Version`: the lockfiles in priority order, each returning as soon as it
   * yields a version, then the package.json specifier.
   */
  method Version(files: AppFiles, deps: map<string, string>) returns (r: Resolution)
    ensures r == InstalledVersion(files, deps)
  {
    var declared := Lookup(deps, "next");
    var names := PossibleLockfileFilenames;
    for i := 0 to |names|
      invariant ResolveFrom(names, files, declared) == ResolveFrom(names[i..], files, declared)
    {
      assert names[i..][1..] == names[i + 1..];
      var filename := names[i];
      if filename in files.readable {
        var rawPackageLock := files.readable[filename];
        if filename == PnpmLock {
          var lockfile := files.decodePnpm(rawPackageLock);
          if lockfile.Some? {
            return Resolved(BeforeParen(Lookup(lockfile.value, "next")));
          }
        }
        if filename == YarnLock {
          var found := ScanYarnLock(rawPackageLock, declared);
          if found.Some? {
            return found.value;
          }
        }
        if filename == NpmShrinkwrap || filename == PackageLock {
          var lockfile := files.decodeNpm(rawPackageLock);
          if lockfile.Some? {
            return Resolved(Lookup(lockfile.value, "node_modules/next"));
          }
        }
      }
    }
    return Resolved(declared);
  }

  // ---------------------------------------------------------------------
  // Properties of the installed-version resolution
  // ---------------------------------------------------------------------

  /** The first lockfile that yields decides; none after it is looked at. */
  lemma {:induction false} FirstYieldDecides(names: seq<string>, files: AppFiles, declared: string, k: nat)
    requires k < |names|
    requires forall j | 0 <= j < k :: LockfileYield(names[j], files, declared).None?
    requires LockfileYield(names[k], files, declared).Some?
    ensures ResolveFrom(names, files, declared) == LockfileYield(names[k], files, declared).value
    decreases k
  {
    if k > 0 {
      assert LockfileYield(names[0], files, declared).None?;
      FirstYieldDecides(names[1..], files, declared, k - 1);
    }
  }

  /** When no lockfile yields, the declared specifier is the answer. */
  lemma {:induction false} NoYieldFallsBack(names: seq<string>, files: AppFiles, declared: string)
    requires forall j | 0 <= j < |names| :: LockfileYield(names[j], files, declared).None?
    ensures ResolveFrom(names, files, declared) == Resolved(declared)
    decreases |names|
  {
    if names != [] {
      assert LockfileYield(names[0], files, declared).None?;
      NoYieldFallsBack(names[1..], files, declared);
    }
  }

  /** With no readable lockfile the result is the package.json specifier. */
  lemma NoLockfilesFallsBack(files: AppFiles, deps: map<string, string>)
    requires forall name | name in PossibleLockfileFilenames :: name !in files.readable
    ensures InstalledVersion(files, deps) == Resolved(Lookup(deps, "next"))
  {
    NoYieldFallsBack(PossibleLockfileFilenames, files, Lookup(deps, "next"));
  }

  /** A pnpm lockfile that decodes wins, whatever the other files hold, even with an empty version. */
  lemma PnpmWins(files: AppFiles, deps: map<string, string>)
    requires PnpmLock in files.readable && files.decodePnpm(files.readable[PnpmLock]).Some?
    ensures InstalledVersion(files, deps)
      == Resolved(BeforeParen(Lookup(files.decodePnpm(files.readable[PnpmLock]).value, "next")))
  {
  }

  /** Without a usable pnpm lockfile, a matching yarn.lock decides (its version or its panic). */
  lemma YarnSecond(files: AppFiles, deps: map<string, string>)
    requires LockfileYield(PnpmLock, files, Lookup(deps, "next")).None?
    requires YarnLock in files.readable
    requires YarnVersion(files.readable[YarnLock], Lookup(deps, "next")).Some?
    ensures InstalledVersion(files, deps) == YarnVersion(files.readable[YarnLock], Lookup(deps, "next")).value
  {
    FirstYieldDecides(PossibleLockfileFilenames, files, Lookup(deps, "next"), 1);
  }

  /**
   * Without a usable pnpm or yarn lockfile, a decodable npm-shrinkwrap.json
   * decides with `packages["node_modules/next"].version` verbatim, even when
   * that key is missing and the value is "".
   */
  lemma ShrinkwrapThird(files: AppFiles, deps: map<string, string>)
    requires LockfileYield(PnpmLock, files, Lookup(deps, "next")).None?
    requires LockfileYield(YarnLock, files, Lookup(deps, "next")).None?
    requires NpmShrinkwrap in files.readable && files.decodeNpm(files.readable[NpmShrinkwrap]).Some?
    ensures InstalledVersion(files, deps)
      == Resolved(Lookup(files.decodeNpm(files.readable[NpmShrinkwrap]).value, "node_modules/next"))
  {
    FirstYieldDecides(PossibleLockfileFilenames, files, Lookup(deps, "next"), 2);
  }

  /** package-lock.json is consulted last, before the package.json fallback. */
  lemma PackageLockFourth(files: AppFiles, deps: map<string, string>)
    requires LockfileYield(PnpmLock, files, Lookup(deps, "next")).None?
    requires LockfileYield(YarnLock, files, Lookup(deps, "next")).None?
    requires LockfileYield(NpmShrinkwrap, files, Lookup(deps, "next")).None?
    ensures PackageLock in files.readable && files.decodeNpm(files.readable[PackageLock]).Some? ==>
      InstalledVersion(files, deps)
        == Resolved(Lookup(files.decodeNpm(files.readable[PackageLock]).value, "node_modules/next"))
    ensures !(PackageLock in files.readable && files.decodeNpm(files.readable[PackageLock]).Some?) ==>
      InstalledVersion(files, deps) == Resolved(Lookup(deps, "next"))
  {
    var declared := Lookup(deps, "next");
    if LockfileYield(PackageLock, files, declared).Some? {
      FirstYieldDecides(PossibleLockfileFilenames, files, declared, 3);
    } else {
      NoYieldFallsBack(PossibleLockfileFilenames, files, declared);
    }
  }

  /**
   * The yarn.lock scan yields nothing exactly when no block both mentions
   * "next@" and the declared specifier and has a line containing "version".
   */
  lemma {:induction false} YarnBlocksNone(blocks: seq<string>, declared: string)
    ensures YarnBlocks(blocks, declared).None? <==> forall k | 0 <= k < |blocks| :: !Decides(blocks[k], declared)
    decreases |blocks|
  {
    if blocks != [] {
      YarnBlocksNone(blocks[1..], declared);
      assert forall k | 1 <= k < |blocks| :: blocks[k] == blocks[1..][k - 1];
    }
  }

  /**
   * The yarn result comes from block `k`, the first one that matches and has a
   * line containing "version": the first such line, its second field, unquoted.
   */
  lemma {:induction false} YarnFirstMatchingBlock(blocks: seq<string>, declared: string, k: nat)
    requires k < |blocks|
    requires forall j | 0 <= j < k ::
      !MatchesNext(blocks[j], declared) || VersionLine(Split(blocks[j], "\n")).None?
    requires MatchesNext(blocks[k], declared)
    requires VersionLine(Split(blocks[k], "\n")).Some?
    ensures YarnBlocks(blocks, declared) == Some(VersionField(VersionLine(Split(blocks[k], "\n")).value))
    decreases k
  {
    if k > 0 {
      assert !MatchesNext(blocks[0], declared) || VersionLine(Split(blocks[0], "\n")).None?;
      YarnFirstMatchingBlock(blocks[1..], declared, k - 1);
    }
  }

  /** The pnpm qualifier "(react@18.2.0)" is dropped: "14.2.3(react@18.2.0)" gives "14.2.3". */
  lemma PnpmQualifierExample()
    ensures BeforeParen("14.2.3(react@18.2.0)") == "14.2.3"
  {
    var v := "14.2.3(react@18.2.0)";
    var x, rest := "14.2.3", "react@18.2.0)";
    assert '(' !in x;
    assert v == x + "(" + rest;
    BeforeParenOf(x, rest);
  }

  /**
   * A version line made of indentation, a key, white space and one more word
   * resolves to that word with its surrounding quotes trimmed.
   */
  lemma VersionFieldOf(indent: string, key: string, sp: string, w: string)
    requires forall i | 0 <= i < |indent| :: IsSpace(indent[i])
    requires |sp| > 0 && forall i | 0 <= i < |sp| :: IsSpace(sp[i])
    requires |key| > 0 && forall i | 0 <= i < |key| :: !IsSpace(key[i])
    requires |w| > 0 && forall i | 0 <= i < |w| :: !IsSpace(w[i])
    ensures VersionField(indent + key + (sp + w)) == Resolved(Trim(w, '"'))
  {
    FieldsFirstTwo(indent, key, sp, w, []);
    assert sp + w + [] == sp + w;
  }

  /** An indented line of a visible-ASCII key and version resolves to the version. */
  lemma BareVersionLine(key: string, v: string)
    requires |key| > 0 && forall i | 0 <= i < |key| :: '!' <= key[i] <= '~'
    requires v != [] && v[0] != '"' && v[|v| - 1] != '"'
    requires forall i | 0 <= i < |v| :: '!' <= v[i] <= '~'
    ensures VersionField("  " + key + (" " + v)) == Resolved(v)
  {
    VisibleNotSpace(key);
    VisibleNotSpace(v);
    VersionFieldOf("  ", key, " ", v);
    TrimWrapped(v, '"');
  }

  /** The same line with the version in double quotes resolves to the unquoted version. */
  lemma QuotedVersionLine(key: string, v: string)
    requires |key| > 0 && forall i | 0 <= i < |key| :: '!' <= key[i] <= '~'
    requires v != [] && v[0] != '"' && v[|v| - 1] != '"'
    requires forall i | 0 <= i < |v| :: '!' <= v[i] <= '~'
    ensures VersionField("  " + key + (" " + ("\"" + v + "\""))) == Resolved(v)
  {
    var w := "\"" + v + "\"";
    assert forall i | 0 <= i < |w| :: !IsSpace(w[i]) by {
      assert forall i | 0 <= i < |w| :: '!' <= w[i] <= '~';
      VisibleNotSpace(w);
    }
    VisibleNotSpace(key);
    VersionFieldOf("  ", key, " ", w);
    TrimWrapped(v, '"');
  }

  /** A yarn 1 line `  version "v"` gives the bare version `v` (for example 14.2.3). */
  lemma YarnClassicVersionLine(v: string)
    requires v != [] && v[0] != '"' && v[|v| - 1] != '"'
    requires forall i | 0 <= i < |v| :: '!' <= v[i] <= '~'
    ensures VersionField("  version \"" + v + "\"") == Resolved(v)
  {
    var key := "version";
    assert "  version \"" + v + "\"" == "  " + key + (" " + ("\"" + v + "\""));
    QuotedVersionLine(key, v);
  }

  /** A yarn 2+ line `  version: v` gives the same bare version. */
  lemma YarnBerryVersionLine(v: string)
    requires v != [] && v[0] != '"' && v[|v| - 1] != '"'
    requires forall i | 0 <= i < |v| :: '!' <= v[i] <= '~'
    ensures VersionField("  version: " + v) == Resolved(v)
  {
    var key := "version:";
    assert "  version: " + v == "  " + key + (" " + v);
    BareVersionLine(key, v);
  }

  /** The pnpm version is the text before the first "(". */
  lemma BeforeParenOf(x: string, rest: string)
    requires '(' !in x
    ensures BeforeParen(x + "(" + rest) == x
  {
    SplitAfter(x, '(', rest);
  }

  /** With no lockfiles and package.json declaring "^14.0.0", the result is "^14.0.0". */
  lemma FallbackExample(files: AppFiles)
    requires files.readable == map[]
    ensures InstalledVersion(files, map["next" := "^14.0.0"]) == Resolved("^14.0.0")
  {
    NoLockfilesFallsBack(files, map["next" := "^14.0.0"]);
  }
}
