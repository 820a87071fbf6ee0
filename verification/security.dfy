/** Which host paths may be bind-mounted into the sandbox: tilde expansion
    and canonicalisation of a requested path, the equal-or-descendant test
    built on `filepath.Rel`, and the two rule lists checked in tiers. */
module Security {
  import opened Results
  import opened Sequences
  import opened Strings
  import opened FilePath
  import opened Host

  /** Rules that no configuration can lift. */
  const HardcodedDeniedPaths: seq<string> :=
    ["~/.gnupg", "~/.netrc", "~/.docker/config.json", "~/.kube/config", "~/.aws/credentials"]

  /** Rules lifted only by enabling the matching credential. */
  const CredentialControlledPaths: seq<string> :=
    ["~/.ssh", "~/.aws", "~/.config/gh", "~/.config/gcloud"]

  /** The same rules as element sequences below the home directory. */
  const HardcodedDeniedNames: seq<seq<string>> :=
    [[".gnupg"], [".netrc"], [".docker", "config.json"], [".kube", "config"], [".aws", "credentials"]]

  const CredentialControlledNames: seq<seq<string>> :=
    [[".ssh"], [".aws"], [".config", "gh"], [".config", "gcloud"]]

  datatype PathError =
    | EmptyPath
    | NoHomeDir
    | NoWorkingDir
    | ResolveError
    | HardDenied(rule: string)
    | CredentialControlled(rule: string)

  /** A rule of the form `~/n1/…/nk` with plain names. */
  predicate HomeRule(rule: string, names: seq<string>) {
    |names| >= 1 && AllNames(names) && rule == "~/" + JoinWith(names, "/")
  }

  lemma OneNameRule(a: string)
    requires IsName(a)
    ensures HomeRule("~/" + a, [a])
  {
    assert JoinWith([a], "/") == a;
  }

  lemma TwoNameRule(a: string, b: string)
    requires IsName(a) && IsName(b)
    ensures HomeRule("~/" + a + "/" + b, [a, b])
  {
    assert [a, b][1..] == [b];
    assert JoinWith([a, b], "/") == a + "/" + b;
    assert "~/" + a + "/" + b == "~/" + (a + "/" + b);
  }

  /** Each hard-denied rule is a home rule over its element sequence. */
  lemma HardRule(i: nat)
    requires i < |HardcodedDeniedPaths|
    ensures |HardcodedDeniedNames| == |HardcodedDeniedPaths|
    ensures HomeRule(HardcodedDeniedPaths[i], HardcodedDeniedNames[i])
  {
    if i == 0 {
      GnupgRule();
    } else if i == 1 {
      NetrcRule();
    } else if i == 2 {
      DockerRule();
    } else if i == 3 {
      KubeRule();
    } else {
      AwsCredentialsRule();
    }
  }

  lemma GnupgRule()
    ensures HomeRule(HardcodedDeniedPaths[0], HardcodedDeniedNames[0])
  {
    OneNameRule(".gnupg");
  }

  lemma NetrcRule()
    ensures HomeRule(HardcodedDeniedPaths[1], HardcodedDeniedNames[1])
  {
    OneNameRule(".netrc");
  }

  lemma DockerRule()
    ensures HomeRule(HardcodedDeniedPaths[2], HardcodedDeniedNames[2])
  {
    var a, b := ".docker", "config.json";
    assert IsName(a) && IsName(b);
    TwoNameRule(a, b);
    assert HardcodedDeniedPaths[2] == "~/" + a + "/" + b;
  }

  lemma KubeRule()
    ensures HomeRule(HardcodedDeniedPaths[3], HardcodedDeniedNames[3])
  {
    var a, b := ".kube", "config";
    assert IsName(a) && IsName(b);
    TwoNameRule(a, b);
    assert HardcodedDeniedPaths[3] == "~/" + a + "/" + b;
  }

  lemma AwsCredentialsRule()
    ensures HomeRule(HardcodedDeniedPaths[4], HardcodedDeniedNames[4])
  {
    var a, b := ".aws", "credentials";
    assert IsName(a) && IsName(b);
    TwoNameRule(a, b);
    assert HardcodedDeniedPaths[4] == "~/" + a + "/" + b;
  }

  /** Each credential-controlled rule is a home rule over its element
      sequence. */
  lemma CredentialRule(i: nat)
    requires i < |CredentialControlledPaths|
    ensures |CredentialControlledNames| == |CredentialControlledPaths|
    ensures HomeRule(CredentialControlledPaths[i], CredentialControlledNames[i])
  {
    if i == 0 {
      SshRule();
    } else if i == 1 {
      AwsRule();
    } else if i == 2 {
      GhRule();
    } else {
      GcloudRule();
    }
  }

  lemma SshRule()
    ensures HomeRule(CredentialControlledPaths[0], CredentialControlledNames[0])
  {
    OneNameRule(".ssh");
  }

  lemma AwsRule()
    ensures HomeRule(CredentialControlledPaths[1], CredentialControlledNames[1])
  {
    OneNameRule(".aws");
  }

  lemma GhRule()
    ensures HomeRule(CredentialControlledPaths[2], CredentialControlledNames[2])
  {
    var a, b := ".config", "gh";
    assert IsName(a) && IsName(b);
    TwoNameRule(a, b);
    assert CredentialControlledPaths[2] == "~/" + a + "/" + b;
  }

  lemma GcloudRule()
    ensures HomeRule(CredentialControlledPaths[3], CredentialControlledNames[3])
  {
    var a, b := ".config", "gcloud";
    assert IsName(a) && IsName(b);
    TwoNameRule(a, b);
    assert CredentialControlledPaths[3] == "~/" + a + "/" + b;
  }

  /** `expandTilde`. */
  function ExpandTilde(path: string, home: string): string {
    if HasPrefix(path, "~/") then Join([home, path[2..]])
    else if path == "~" then home
    else path
  }

  /** The home directory with further plain names, as `filepath.Join`
      renders it. */
  function Under(home: string, names: seq<string>): string {
    Render(Lexical(Parse(home).rooted, Parse(home).elems + names))
  }

  lemma ParseUnder(home: string, names: seq<string>)
    requires AllNames(names)
    ensures Parse(Under(home, names)) == Lexical(Parse(home).rooted, Parse(home).elems + names)
  {
    ParseIsClean(home);
    CleanAppendNames(Parse(home).rooted, Parse(home).elems, names);
    ParseRender(Lexical(Parse(home).rooted, Parse(home).elems + names));
  }

  /** A home rule expands to the home directory extended by its names;
      `~` expands to the home directory and other paths are kept. */
  lemma ExpandTildeRule(rule: string, names: seq<string>, home: string)
    requires HomeRule(rule, names) && home != ""
    ensures ExpandTilde(rule, home) == Under(home, names)
  {
    assert rule[2..] == JoinWith(names, "/");
    JoinNames(home, names);
  }

  lemma ExpandTildeOthers(path: string, home: string)
    ensures path == "~" ==> ExpandTilde(path, home) == home
    ensures path != "~" && !HasPrefix(path, "~/") ==> ExpandTilde(path, home) == path
    ensures HasPrefix(path, "~/") && home != "" ==>
              Parse(ExpandTilde(path, home)).rooted == Parse(home).rooted
  {
    if HasPrefix(path, "~/") && home != "" {
      assert JoinWith([home, path[2..]], "/") == home + "/" + path[2..];
      assert (home + "/" + path[2..])[0] == home[0];
      ParseClean(home + "/" + path[2..]);
    }
  }

  /** The tilde stage of `ExpandPath`, which asks for the home directory
      only when the path needs it. */
  function ExpandHome(path: string, home: Option<string>): (r: Result<string, PathError>)
    ensures r.Failure? <==> (HasPrefix(path, "~/") || path == "~") && home.None?
    ensures r.Failure? ==> r.error == NoHomeDir
    ensures home.Some? ==> r == Success(ExpandTilde(path, home.value))
  {
    if HasPrefix(path, "~/") || path == "~" then
      if home.None? then Failure(NoHomeDir) else Success(ExpandTilde(path, home.value))
    else Success(path)
  }

  /** The second lexical stage of `ExpandPath`: clean the path and, when
      it is not absolute, join it onto the working directory. */
  function Anchor(p: string, cwd: Option<string>): (r: Result<string, PathError>)
    ensures IsAbs(p) ==> r == Success(Clean(p))
    ensures !IsAbs(p) && cwd.None? ==> r == Failure(NoWorkingDir)
    ensures !IsAbs(p) && cwd.Some? ==> r == Success(Join([cwd.value, Clean(p)]))
    ensures r.Success? ==> Clean(r.value) == r.value
    ensures r.Success? && (cwd.Some? ==> IsAbs(cwd.value)) ==> IsAbs(r.value)
  {
    var c := Clean(p);
    CleanIdempotent(p);
    CleanKeepsRootedness(p);
    if IsAbs(c) then Success(c)
    else if cwd.None? then Failure(NoWorkingDir)
    else
      var j := Join([cwd.value, c]);
      JoinIsClean([cwd.value, c]);
      JoinNonEmpty(cwd.value, c);
      if IsAbs(cwd.value) then JoinOntoAbs(cwd.value, c); Success(j)
      else Success(j)
  }

  /** The lexical part of `ExpandPath`: tilde expansion, then `Anchor`. */
  function Canonical(path: string, h: Host): (r: Result<string, PathError>)
    ensures r == Failure(EmptyPath) <==> path == ""
    ensures r == Failure(NoHomeDir) <==>
              path != "" && (HasPrefix(path, "~/") || path == "~") && h.home.None?
    ensures path != "" && ExpandHome(path, h.home).Success? ==> r == Anchor(ExpandHome(path, h.home).value, h.cwd)
    ensures r == Failure(NoWorkingDir) <==>
              path != "" && ExpandHome(path, h.home).Success? && !IsAbs(ExpandHome(path, h.home).value) && h.cwd.None?
    ensures r.Failure? ==> r.error in {EmptyPath, NoHomeDir, NoWorkingDir}
    ensures r.Success? ==> Clean(r.value) == r.value
    ensures r.Success? && (h.cwd.Some? ==> IsAbs(h.cwd.value)) ==> IsAbs(r.value)
    ensures IsAbs(path) ==> r == Success(Clean(path))
  {
    if path == "" then Failure(EmptyPath)
    else
      var p :- ExpandHome(path, h.home);
      Anchor(p, h.cwd)
  }

  /** A relative path that does not start with a tilde is cleaned and
      joined onto the working directory, and fails without one. */
  lemma CanonicalRelative(path: string, h: Host)
    requires path != "" && path != "~" && !HasPrefix(path, "~/") && !IsAbs(path)
    ensures h.cwd.None? ==> Canonical(path, h) == Failure(NoWorkingDir)
    ensures h.cwd.Some? ==> Canonical(path, h) == Success(Join([h.cwd.value, Clean(path)]))
  {
  }

  /** With an absolute home directory, `~` canonicalises to the cleaned
      home and `~/rest` to `filepath.Join(home, rest)`. */
  lemma CanonicalTilde(path: string, h: Host)
    requires h.home.Some? && IsAbs(h.home.value)
    ensures path == "~" ==> Canonical(path, h) == Success(Clean(h.home.value))
    ensures HasPrefix(path, "~/") ==> Canonical(path, h) == Success(Join([h.home.value, path[2..]]))
  {
    var home := h.home.value;
    if HasPrefix(path, "~/") {
      var j := Join([home, path[2..]]);
      JoinOntoAbs(home, path[2..]);
      JoinIsClean([home, path[2..]]);
      assert ExpandHome(path, h.home) == Success(j);
    }
  }

  /** A canonical path is a fixed point of canonicalisation when the
      working directory, if known, is absolute. */
  lemma CanonicalIdempotent(path: string, h: Host)
    requires h.cwd.Some? ==> IsAbs(h.cwd.value)
    ensures Canonical(path, h).Success? ==> Canonical(Canonical(path, h).value, h) == Canonical(path, h)
  {
    if Canonical(path, h).Success? {
      var v := Canonical(path, h).value;
      assert IsAbs(v);
      assert v != "~" && !HasPrefix(v, "~/") by {
        assert v[0] == Separator;
      }
    }
  }

  /** `ExpandPath`: the canonical path with symbolic links resolved; a
      path that does not exist yet is returned unresolved, and any other
      resolution error is an error. */
  function ExpandPath(path: string, h: Host): (r: Result<string, PathError>)
    ensures path == "" ==> r == Failure(EmptyPath)
    ensures Canonical(path, h).Failure? ==> r == Canonical(path, h).PropagateFailure()
    ensures Canonical(path, h).Success? ==>
              match h.evalSymlinks(Canonical(path, h).value)
              case Resolved(p) => r == Success(p)
              case Dangling => r == Canonical(path, h)
              case ResolveFailed => r == Failure(ResolveError)
  {
    var c :- Canonical(path, h);
    match h.evalSymlinks(c)
    case Resolved(p) => Success(p)
    case Dangling => Success(c)
    case ResolveFailed => Failure(ResolveError)
  }

  /** `pathMatches(path, target)`: `path` equals `target`, or the relative
      path from `target` to `path` does not begin with `..`. That is the
      same as `path`'s clean elements extending `target`'s with a first
      further element, if any, that does not itself begin with `..`. */
  function PathMatches(path: string, target: string): (r: bool)
    ensures r <==> path == target || BelowAsWritten(Parse(path), Parse(target))
  {
    RelAsWritten(target, path);
    if path == target then true
    else
      var rel := Rel(target, path);
      rel.Success? && !HasPrefix(rel.value, "..")
  }

  /** `IsPathInDirectory`. */
  function IsPathInDirectory(path: string, directory: string): (r: bool)
    ensures r <==> path == directory || BelowAsWritten(Parse(path), Parse(directory))
  {
    PathMatches(path, directory)
  }

  lemma PrefixCancel<T>(h: seq<T>, a: seq<T>, b: seq<T>)
    ensures h + a <= h + b <==> a <= b
  {
    if h + a <= h + b {
      assert a == (h + a)[|h|..];
      assert (h + b)[..|h + a|][|h|..] == b[..|a|];
    }
    if a <= b {
      assert h + b == (h + a) + b[|a|..];
    }
  }

  /** Two paths below the same home directory match exactly when the
      target's names are a prefix of the path's and the first further
      name, if any, does not begin with `..`. */
  lemma MatchNames(home: string, pn: seq<string>, rn: seq<string>)
    requires AllNames(pn) && AllNames(rn)
    ensures PathMatches(Under(home, pn), Under(home, rn)) <==>
            rn <= pn && (|rn| < |pn| ==> !HasPrefix(pn[|rn|], ".."))
  {
    var hp := Parse(home);
    ParseUnder(home, pn);
    ParseUnder(home, rn);
    PrefixCancel(hp.elems, rn, pn);
    if |rn| < |pn| {
      assert (hp.elems + pn)[|hp.elems + rn|] == pn[|rn|];
    }
    if Under(home, pn) == Under(home, rn) {
      assert hp.elems + pn == hp.elems + rn;
      assert pn == (hp.elems + pn)[|hp.elems|..];
    }
  }

  /** A path below the target by plain names matches it. */
  lemma NestedChildMatches(target: string, names: seq<string>)
    requires target != "" && |names| >= 1 && AllNames(names)
    requires !HasPrefix(names[0], "..")
    ensures PathMatches(Join([target] + names), target)
  {
    JoinNames(target, names);
    ParseIsClean(target);
    CleanAppendNames(Parse(target).rooted, Parse(target).elems, names);
    ParseRender(Lexical(Parse(target).rooted, Parse(target).elems + names));
    assert (Parse(target).elems + names)[|Parse(target).elems|] == names[0];
  }

  /** A sibling such as `~/.netrc.bak` does not match `~/.netrc`. */
  lemma SiblingDoesNotMatch(dir: string, a: string, b: string)
    requires IsName(a) && IsName(b) && a != b
    ensures !PathMatches(Join([dir, a]), Join([dir, b]))
  {
    var p := Parse(dir);
    JoinedName(dir, a);
    JoinedName(dir, b);
    ParseUnder(dir, [a]);
    ParseUnder(dir, [b]);
    assert (p.elems + [a])[|p.elems|] == a;
    assert (p.elems + [b])[|p.elems|] == b;
  }

  lemma NetrcBackupDoesNotMatch(home: string)
    ensures !PathMatches(Join([home, ".netrc.bak"]), Join([home, ".netrc"]))
  {
    SiblingDoesNotMatch(home, ".netrc.bak", ".netrc");
  }

  /** An entry directly inside the target whose name begins with `..`
      (such as `T/..x`) is a descendant, yet the string test on the
      relative path reports no match. */
  lemma DotDotNamedChildQuirk(target: string, child: string)
    requires IsName(child) && HasPrefix(child, "..")
    ensures Parse(Join([target, child])).elems == Parse(target).elems + [child]
    ensures !PathMatches(Join([target, child]), target)
  {
    JoinedName(target, child);
    ParseUnder(target, [child]);
    var p := Parse(target);
    assert (p.elems + [child])[|p.elems|] == child;
    ParseIsClean(target);
    ParseRender(p);
    assert Parse(Join([target, child])) != Parse(target) by {
      assert |Parse(Join([target, child])).elems| == |p.elems| + 1;
    }
  }

  /** The index of the first rule whose expansion `path` matches. */
  function FirstMatch(path: string, rules: seq<string>, home: string): (r: Option<nat>)
    ensures r.Some? ==> r.value < |rules| && PathMatches(path, ExpandTilde(rules[r.value], home))
    ensures r.Some? ==> forall j :: 0 <= j < r.value ==> !PathMatches(path, ExpandTilde(rules[j], home))
    ensures r.None? <==> forall j :: 0 <= j < |rules| ==> !PathMatches(path, ExpandTilde(rules[j], home))
  {
    FirstIndex(rules, (rule: string) => PathMatches(path, ExpandTilde(rule, home)))
  }

  /** `ValidateMountPath`: the hard-denied list only. */
  function ValidateMountPath(path: string, home: Option<string>): (r: Outcome<PathError>)
    ensures r == Fail(NoHomeDir) <==> home.None?
    ensures r.Pass? <==> (home.Some? &&
              forall j :: 0 <= j < |HardcodedDeniedPaths| ==>
                !PathMatches(path, ExpandTilde(HardcodedDeniedPaths[j], home.value)))
    ensures r.Fail? && r.error != NoHomeDir ==>
              r.error.HardDenied? && r.error.rule in HardcodedDeniedPaths &&
              PathMatches(path, ExpandTilde(r.error.rule, home.value))
    ensures home.Some? && FirstMatch(path, HardcodedDeniedPaths, home.value).Some? ==>
              r == Fail(HardDenied(HardcodedDeniedPaths[FirstMatch(path, HardcodedDeniedPaths, home.value).value]))
  {
    if home.None? then Fail(NoHomeDir)
    else
      match FirstMatch(path, HardcodedDeniedPaths, home.value)
      case Some(i) => Fail(HardDenied(HardcodedDeniedPaths[i]))
      case None => Pass
  }

  /** `ValidateMountPathStrict`: the hard-denied list first, then the
      credential-controlled list. */
  function ValidateMountPathStrict(path: string, home: Option<string>): (r: Outcome<PathError>)
    ensures ValidateMountPath(path, home).Fail? ==> r == ValidateMountPath(path, home)
    ensures r.Pass? <==> (ValidateMountPath(path, home).Pass? &&
              forall j :: 0 <= j < |CredentialControlledPaths| ==>
                !PathMatches(path, ExpandTilde(CredentialControlledPaths[j], home.value)))
    ensures r.Fail? && r.error.CredentialControlled? ==>
              ValidateMountPath(path, home).Pass? && r.error.rule in CredentialControlledPaths &&
              PathMatches(path, ExpandTilde(r.error.rule, home.value))
    ensures ValidateMountPath(path, home).Pass? && FirstMatch(path, CredentialControlledPaths, home.value).Some? ==>
              r == Fail(CredentialControlled(CredentialControlledPaths[FirstMatch(path, CredentialControlledPaths, home.value).value]))
  {
    var tier1 := ValidateMountPath(path, home);
    if tier1.Fail? then tier1
    else
      match FirstMatch(path, CredentialControlledPaths, home.value)
      case Some(i) => Fail(CredentialControlled(CredentialControlledPaths[i]))
      case None => Pass
  }

  /** Whether the home-relative names `pn` match each rule of a list. */
  lemma RuleMatches(home: string, pn: seq<string>, rules: seq<string>, names: seq<seq<string>>, j: nat)
    requires home != "" && AllNames(pn)
    requires j < |rules| && j < |names| && HomeRule(rules[j], names[j])
    ensures PathMatches(Under(home, pn), ExpandTilde(rules[j], home)) <==>
            names[j] <= pn && (|names[j]| < |pn| ==> !HasPrefix(pn[|names[j]|], ".."))
  {
    ExpandTildeRule(rules[j], names[j], home);
    MatchNames(home, pn, names[j]);
  }

  /** Every path at or below a hard-denied rule by plain names is
      rejected by the first tier. */
  lemma HardRuleDenies(home: string, i: nat, extra: seq<string>)
    requires home != "" && i < |HardcodedDeniedNames| && AllNames(extra)
    requires extra != [] ==> !HasPrefix(extra[0], "..")
    ensures ValidateMountPath(Under(home, HardcodedDeniedNames[i] + extra), Some(home)).Fail?
  {
    HardRule(i);
    var pn := HardcodedDeniedNames[i] + extra;
    assert AllNames(pn) by {
      assert forall k :: 0 <= k < |pn| ==>
        pn[k] == if k < |HardcodedDeniedNames[i]| then HardcodedDeniedNames[i][k] else extra[k - |HardcodedDeniedNames[i]|];
    }
    RuleMatches(home, pn, HardcodedDeniedPaths, HardcodedDeniedNames, i);
    if extra != [] {
      assert pn[|HardcodedDeniedNames[i]|] == extra[0];
    }
  }

  /** A key below `~/.ssh` passes the first tier, which never looks at
      the credential-controlled list, and is refused by the strict one. */
  lemma SshKeyTiers(home: string, key: string)
    requires home != "" && IsName(key) && !HasPrefix(key, "..")
    ensures ValidateMountPath(Under(home, [".ssh", key]), Some(home)) == Pass
    ensures ValidateMountPathStrict(Under(home, [".ssh", key]), Some(home)) ==
            Fail(CredentialControlled("~/.ssh"))
  {
    var pn := [".ssh", key];
    forall j | 0 <= j < |HardcodedDeniedPaths|
      ensures !PathMatches(Under(home, pn), ExpandTilde(HardcodedDeniedPaths[j], home))
    {
      HardRule(j);
      RuleMatches(home, pn, HardcodedDeniedPaths, HardcodedDeniedNames, j);
      assert HardcodedDeniedNames[j][0] != pn[0];
    }
    CredentialRule(0);
    RuleMatches(home, pn, CredentialControlledPaths, CredentialControlledNames, 0);
  }

  /** The first rule of a list a path matches is the one at `i` when it
      matches that one and none before it. */
  lemma FirstMatchIs(path: string, rules: seq<string>, home: string, i: nat)
    requires i < |rules| && PathMatches(path, ExpandTilde(rules[i], home))
    requires forall j :: 0 <= j < i ==> !PathMatches(path, ExpandTilde(rules[j], home))
    ensures FirstMatch(path, rules, home) == Some(i)
  {
  }

  lemma AwsCredentialsMissesEarlierRules(home: string, j: nat)
    requires home != "" && j < 4
    ensures !PathMatches(Under(home, [".aws", "credentials"]), ExpandTilde(HardcodedDeniedPaths[j], home))
  {
    HardRule(j);
    RuleMatches(home, [".aws", "credentials"], HardcodedDeniedPaths, HardcodedDeniedNames, j);
    assert HardcodedDeniedNames[j][0] != ".aws";
  }

  /** `~/.aws/credentials` is reported under its hard rule even though it
      also lies below the credential-controlled `~/.aws`. */
  lemma AwsCredentialsReportsHardRule(home: string)
    requires home != ""
    ensures PathMatches(Under(home, [".aws", "credentials"]), ExpandTilde(CredentialControlledPaths[1], home))
    ensures ValidateMountPathStrict(Under(home, [".aws", "credentials"]), Some(home)) ==
            Fail(HardDenied("~/.aws/credentials"))
  {
    AwsCredentialsFirstMatch(home);
    AwsCredentialsBelowAws(home);
  }

  lemma AwsCredentialsFirstMatch(home: string)
    requires home != ""
    ensures FirstMatch(Under(home, [".aws", "credentials"]), HardcodedDeniedPaths, home) == Some(4)
  {
    var pn := [".aws", "credentials"];
    var path := Under(home, pn);
    forall j | 0 <= j < 4
      ensures !PathMatches(path, ExpandTilde(HardcodedDeniedPaths[j], home))
    {
      AwsCredentialsMissesEarlierRules(home, j);
    }
    AwsCredentialsMatchesOwnRule(home);
    FirstMatchIs(path, HardcodedDeniedPaths, home, 4);
  }

  lemma AwsCredentialsMatchesOwnRule(home: string)
    requires home != ""
    ensures PathMatches(Under(home, [".aws", "credentials"]), ExpandTilde(HardcodedDeniedPaths[4], home))
  {
    HardRule(4);
    RuleMatches(home, [".aws", "credentials"], HardcodedDeniedPaths, HardcodedDeniedNames, 4);
    assert HardcodedDeniedNames[4] <= [".aws", "credentials"];
  }

  lemma AwsCredentialsBelowAws(home: string)
    requires home != ""
    ensures PathMatches(Under(home, [".aws", "credentials"]), ExpandTilde(CredentialControlledPaths[1], home))
  {
    var pn := [".aws", "credentials"];
    CredentialRule(1);
    RuleMatches(home, pn, CredentialControlledPaths, CredentialControlledNames, 1);
    assert CredentialControlledNames[1] == [".aws"] && CredentialControlledNames[1] <= pn;
    assert !HasPrefix(pn[1], "..") by {
      assert pn[1][0] == 'c';
    }
  }
}
