/** The pure parts of the `config` command: the value check `config set`
    applies, the boolean coercion of the value it stores, the dot-notation
    listing `config list` prints, and where the configuration file lives. */
module ConfigCommand {
  import opened Results
  import opened Strings
  import opened FilePath
  import opened Constants

  // ---------------------------------------------------------------------
  // validateConfigKey

  datatype ConfigError = InvalidValue(key: string, value: string, allowed: string)

  /** The keys whose values are restricted, each with its allowed values in
      the order the error message lists them. */
  const Validations: map<string, seq<string>> := map[
    "claude.auth" := [AuthAuto, AuthSession, AuthApiKey],
    "claude.session_dir" := [SessionNone, SessionReadOnly, SessionReadWrite],
    "credentials.github" := [CredentialAuto, CredentialEnabled, CredentialDisabled],
    "credentials.gcloud" := [CredentialAuto, CredentialEnabled, CredentialDisabled],
    "container.network" := [NetworkBridge, NetworkNone, NetworkHost]]

  /** The scan over the allowed values, by exact comparison. */
  function Listed(allowed: seq<string>, value: string): (b: bool)
    ensures b <==> value in allowed
  {
    if allowed == [] then false
    else allowed[0] == value || Listed(allowed[1..], value)
  }

  /** `validateConfigKey`: a restricted key accepts exactly its listed
      values, and every other key accepts anything. */
  function ValidateConfigKey(key: string, value: string): (r: Outcome<ConfigError>)
    ensures key !in Validations ==> r == Pass
    ensures key in Validations ==> (r == Pass <==> value in Validations[key])
    ensures r.Fail? ==> key in Validations && r.error == InvalidValue(key, value, JoinWith(Validations[key], ", "))
  {
    if key in Validations then
      var allowed := Validations[key];
      if Listed(allowed, value) then Pass
      else Fail(InvalidValue(key, value, JoinWith(allowed, ", ")))
    else Pass
  }

  /** The values accepted for the authentication mode. */
  lemma AuthModesAccepted(m: string)
    requires m in {AuthAuto, AuthSession, AuthApiKey}
    ensures ValidateConfigKey("claude.auth", m) == Pass
  {
    assert "claude.auth" in Validations && Validations["claude.auth"] == [AuthAuto, AuthSession, AuthApiKey];
  }

  /** The values accepted for either credential mode. */
  lemma CredentialModesAccepted(key: string, m: string)
    requires key in {"credentials.github", "credentials.gcloud"}
    requires m in {CredentialAuto, CredentialEnabled, CredentialDisabled}
    ensures ValidateConfigKey(key, m) == Pass
  {
    assert key in Validations && Validations[key] == [CredentialAuto, CredentialEnabled, CredentialDisabled];
  }

  /** The values accepted for the network mode. */
  lemma NetworkModesAccepted(m: string)
    requires m in {NetworkBridge, NetworkNone, NetworkHost}
    ensures ValidateConfigKey("container.network", m) == Pass
  {
    assert "container.network" in Validations && Validations["container.network"] == [NetworkBridge, NetworkNone, NetworkHost];
  }

  /** No letter of the string changes under lower-casing. */
  predicate NoUpper(s: string) {
    forall i :: 0 <= i < |s| ==> LowerChar(s[i]) == s[i]
  }

  lemma NoUpperLower(s: string)
    requires NoUpper(s)
    ensures ToLower(s) == s
  {
  }

  lemma AllowedLowerCase(key: string)
    requires key in Validations
    ensures forall i :: 0 <= i < |Validations[key]| ==> NoUpper(Validations[key][i])
  {
  }

  /** The comparison is case-sensitive: a value that differs from an
      allowed one only in letter case is refused, since every allowed value
      is written in lower case. */
  lemma {:induction false} CaseSensitive(key: string, value: string)
    requires key in Validations
    requires ToLower(value) in Validations[key] && ToLower(value) != value
    ensures ValidateConfigKey(key, value).Fail?
  {
    AllowedLowerCase(key);
  }

  // ---------------------------------------------------------------------
  // The value `config set` stores

  /** What `config set` hands to the settings store: a boolean or the
      text itself. */
  datatype Stored = Flag(on: bool) | Text(text: string)

  /** Exactly `true` and `false` become booleans; every other value, other
      spellings of a boolean included, stays text. */
  function Coerce(value: string): (r: Stored)
    ensures r.Flag? <==> value == "true" || value == "false"
    ensures r.Flag? ==> (r.on <==> value == "true")
    ensures r.Text? ==> r.text == value
  {
    if value == "true" then Flag(true)
    else if value == "false" then Flag(false)
    else Text(value)
  }

  /** A stored value as `%v` prints it. */
  function Show(v: Stored): string {
    match v
    case Flag(on) => if on then "true" else "false"
    case Text(text) => text
  }

  /** Coercion loses nothing: the stored value prints as the value given,
      and a stored value that is not the text of a boolean is recovered
      from its printed form. */
  lemma CoerceShow(value: string, v: Stored)
    ensures Show(Coerce(value)) == value
    ensures !(v.Text? && v.text in {"true", "false"}) ==> Coerce(Show(v)) == v
  {
  }

  // ---------------------------------------------------------------------
  // getConfigPath

  const ConfigNames: seq<string> := [".config", "enclaude", "config.yaml"]

  /** `getConfigPath`: `filepath.Join(home, ".config", "enclaude",
      "config.yaml")`, with the home directory's error ignored, so that a
      missing home gives the empty string as the first element. */
  function ConfigPath(home: Option<string>): (r: string)
    ensures home.Some? && home.value != "" ==>
              Parse(r) == Lexical(Parse(home.value).rooted, Parse(home.value).elems + ConfigNames) &&
              Clean(r) == r
    ensures home.Some? && IsAbs(home.value) ==> IsAbs(r)
    ensures home.None? || home.value == "" ==> r == ".config/enclaude/config.yaml"
  {
    var h := home.GetOr("");
    ConfigPathShape(h);
    Join([h] + ConfigNames)
  }

  lemma ConfigPathShape(h: string)
    ensures h != "" ==>
              Parse(Join([h] + ConfigNames)) == Lexical(Parse(h).rooted, Parse(h).elems + ConfigNames) &&
              Clean(Join([h] + ConfigNames)) == Join([h] + ConfigNames)
    ensures IsAbs(h) ==> IsAbs(Join([h] + ConfigNames))
    ensures h == "" ==> Join([h] + ConfigNames) == ".config/enclaude/config.yaml"
  {
    if h == "" {
      ConfigPathWithoutHome();
    } else {
      ConfigPathBelowHome(h);
    }
  }

  lemma ConfigNamesAreNames()
    ensures AllNames(ConfigNames)
  {
    assert IsName(ConfigNames[0]) && IsName(ConfigNames[1]) && IsName(ConfigNames[2]);
  }

  lemma ConfigPathWithoutHome()
    ensures Join([""] + ConfigNames) == ".config/enclaude/config.yaml"
  {
    ConfigNamesAreNames();
    JoinOntoEmpty(ConfigNames);
    ConfigNamesJoined();
  }

  lemma ConfigNamesJoined()
    ensures JoinWith(ConfigNames, "/") == ".config/enclaude/config.yaml"
  {
    assert JoinWith(ConfigNames[2..], "/") == "config.yaml";
    assert JoinWith(ConfigNames[1..], "/") == "enclaude/config.yaml";
  }

  lemma ConfigPathBelowHome(h: string)
    requires h != ""
    ensures Parse(Join([h] + ConfigNames)) == Lexical(Parse(h).rooted, Parse(h).elems + ConfigNames)
    ensures Clean(Join([h] + ConfigNames)) == Join([h] + ConfigNames)
    ensures IsAbs(h) ==> IsAbs(Join([h] + ConfigNames))
  {
    ConfigNamesAreNames();
    JoinBelow(h, ConfigNames);
  }

  // ---------------------------------------------------------------------
  // printSettingsFlat

  /** A settings value as the store returns it: a nested table, or a leaf
      already formatted as `%v` prints it. A table lists the entries of a Go
      map in whatever order iteration yields them. */
  datatype Setting = Leaf(text: string) | Table(entries: seq<(string, Setting)>)

  type Entries = seq<(string, Setting)>

  function Keys(es: Entries): (ks: seq<string>)
    ensures |ks| == |es| && forall i :: 0 <= i < |es| ==> ks[i] == es[i].0
  {
    seq(|es|, i requires 0 <= i < |es| => es[i].0)
  }

  predicate Distinct(ks: seq<string>) {
    forall i, j :: 0 <= i < j < |ks| ==> ks[i] != ks[j]
  }

  /** A Go map holds each key once, at every level. */
  predicate WellFormed(s: Setting) {
    match s
    case Leaf(_) => true
    case Table(es) => Distinct(Keys(es)) && forall i :: 0 <= i < |es| ==> WellFormed(es[i].1)
  }

  /** Ascending in Go's string order (`sort.Strings`). */
  predicate Sorted(ks: seq<string>) {
    forall i, j :: 0 <= i < j < |ks| ==> !Less(ks[j], ks[i])
  }

  predicate Increasing(ks: seq<string>) {
    forall i, j :: 0 <= i < j < |ks| ==> Less(ks[i], ks[j])
  }

  lemma BelowAll(x: string, k: string, tail: seq<string>, rest: seq<string>)
    requires forall j :: 0 <= j < |tail| ==> !Less(tail[j], x)
    requires !Less(k, x)
    requires multiset(rest) == multiset(tail) + multiset{k}
    ensures forall m :: 0 <= m < |rest| ==> !Less(rest[m], x)
  {
    forall m | 0 <= m < |rest|
      ensures !Less(rest[m], x)
    {
      assert rest[m] in multiset(rest);
      if rest[m] != k {
        assert rest[m] in multiset(tail);
      }
    }
  }

  lemma AtMostAll(k: string, ks: seq<string>)
    requires Sorted(ks) && ks != [] && !Less(ks[0], k)
    ensures forall j :: 0 <= j < |ks| ==> !Less(ks[j], k)
  {
    forall j | 0 <= j < |ks|
      ensures !Less(ks[j], k)
    {
      LessTrichotomy(ks[0], ks[j]);
      if Less(ks[j], k) && Less(ks[0], ks[j]) {
        LessTransitive(ks[0], ks[j], k);
      }
    }
  }

  /** One step of the sort: `k` placed before the first key it does not
      follow. */
  function Insert(k: string, ks: seq<string>): (r: seq<string>)
    requires Sorted(ks)
    ensures multiset(r) == multiset(ks) + multiset{k}
    ensures Sorted(r)
  {
    if ks == [] then [k]
    else if Less(ks[0], k) then
      var rest := Insert(k, ks[1..]);
      assert ks == [ks[0]] + ks[1..];
      LessTrichotomy(ks[0], k);
      BelowAll(ks[0], k, ks[1..], rest);
      [ks[0]] + rest
    else
      AtMostAll(k, ks);
      [k] + ks
  }

  /** `sort.Strings`: the same keys, in ascending order. */
  function Sort(ks: seq<string>): (r: seq<string>)
    ensures multiset(r) == multiset(ks)
    ensures Sorted(r)
  {
    if ks == [] then []
    else
      assert ks == [ks[0]] + ks[1..];
      Insert(ks[0], Sort(ks[1..]))
  }

  lemma {:induction false} InsertDistinct(k: string, ks: seq<string>)
    requires Sorted(ks) && Distinct(ks) && k !in ks
    ensures Distinct(Insert(k, ks))
  {
    if ks != [] && Less(ks[0], k) {
      InsertDistinct(k, ks[1..]);
      var rest := Insert(k, ks[1..]);
      assert ks[0] !in multiset(ks[1..]) + multiset{k};
      assert ks[0] !in rest;
    }
  }

  /** Sorting keys that are all different orders them strictly. */
  lemma {:induction false} SortDistinct(ks: seq<string>)
    requires Distinct(ks)
    ensures Distinct(Sort(ks)) && Increasing(Sort(ks))
  {
    if ks != [] {
      SortDistinct(ks[1..]);
      assert ks[0] !in multiset(ks[1..]);
      InsertDistinct(ks[0], Sort(ks[1..]));
    }
    var r := Sort(ks);
    forall i, j | 0 <= i < j < |r|
      ensures Less(r[i], r[j])
    {
      LessTrichotomy(r[i], r[j]);
    }
  }

  lemma SortedKeys(es: Entries)
    ensures forall k :: k in Sort(Keys(es)) <==> k in Keys(es)
  {
    forall k
      ensures k in Sort(Keys(es)) <==> k in Keys(es)
    {
      assert k in Sort(Keys(es)) <==> k in multiset(Sort(Keys(es)));
    }
  }

  /** The lookup `settings[key]`: the position of the key in the table. */
  function KeyIndex(es: Entries, k: string): (i: nat)
    requires k in Keys(es)
    ensures i < |es| && es[i].0 == k
    ensures forall j :: 0 <= j < i ==> es[j].0 != k
  {
    if es[0].0 == k then 0
    else
      assert k in Keys(es[1..]) by {
        var j :| 0 <= j < |es| && Keys(es)[j] == k;
        assert Keys(es[1..])[j - 1] == k;
      }
      1 + KeyIndex(es[1..], k)
  }

  /** The value stored under a key. */
  function Child(es: Entries, k: string): Setting
    requires k in Keys(es)
  {
    es[KeyIndex(es, k)].1
  }

  /** The dotted key of a nested entry. */
  function Extend(prefix: string, key: string): string {
    if prefix == "" then key else prefix + "." + key
  }

  /** `printSettingsFlat`, returning the lines it prints (without their
      newlines). */
  function PrintSettingsFlat(prefix: string, es: Entries): (lines: seq<string>)
    ensures prefix != "" ==> forall i :: 0 <= i < |lines| ==> HasPrefix(lines[i], prefix + ".")
    decreases Table(es), 1, 0
  {
    SortedKeys(es);
    PrintKeys(prefix, es, Sort(Keys(es)))
  }

  /** The loop of `printSettingsFlat` over the sorted keys `ks`. */
  function PrintKeys(prefix: string, es: Entries, ks: seq<string>): (lines: seq<string>)
    requires forall k :: k in ks ==> k in Keys(es)
    ensures prefix != "" ==> forall i :: 0 <= i < |lines| ==> HasPrefix(lines[i], prefix + ".")
    decreases Table(es), 0, |ks|
  {
    if ks == [] then []
    else
      var head, tail := PrintEntry(prefix, es, ks[0]), PrintKeys(prefix, es, ks[1..]);
      assert forall i :: |head| <= i < |head + tail| ==> (head + tail)[i] == tail[i - |head|];
      head + tail
  }

  /** The loop body for one key: descend into a nested table, print any
      other value. */
  function PrintEntry(prefix: string, es: Entries, k: string): (lines: seq<string>)
    requires k in Keys(es)
    ensures prefix != "" ==> forall i :: 0 <= i < |lines| ==> HasPrefix(lines[i], prefix + ".")
    decreases Table(es), 0, 0
  {
    var fullKey := Extend(prefix, k);
    assert prefix != "" ==> fullKey == (prefix + ".") + k;
    match Child(es, k)
    case Table(nested) =>
      var lines := PrintSettingsFlat(fullKey, nested);
      assert prefix != "" ==> forall i :: 0 <= i < |lines| ==> HasPrefix(lines[i], prefix + ".") by {
        if prefix != "" {
          forall i | 0 <= i < |lines| ensures HasPrefix(lines[i], prefix + ".") {
            PrefixOfPrefix(prefix + ".", fullKey + ".", lines[i]);
          }
        }
      }
      lines
    case Leaf(text) =>
      assert prefix != "" ==> fullKey + ": " + text == (prefix + ".") + (k + ": " + text);
      [fullKey + ": " + text]
  }

  lemma PrefixOfPrefix(a: string, b: string, s: string)
    requires HasPrefix(b, a) && HasPrefix(s, b)
    ensures HasPrefix(s, a)
  {
    assert s[..|a|] == b[..|a|];
  }

  /** A leaf reached along a key path. */
  type Path = seq<string>

  /** The leaves of a table as key paths with their text, in the order of
      the listing. */
  function Flat(es: Entries): (r: seq<(Path, string)>)
    decreases Table(es), 1, 0
  {
    SortedKeys(es);
    FlatKeys(es, Sort(Keys(es)))
  }

  function FlatKeys(es: Entries, ks: seq<string>): (r: seq<(Path, string)>)
    requires forall k :: k in ks ==> k in Keys(es)
    decreases Table(es), 0, |ks|
    ensures forall i :: 0 <= i < |r| ==> r[i].0 != [] && r[i].0[0] in ks
  {
    if ks == [] then [] else Block(es, ks[0]) + FlatKeys(es, ks[1..])
  }

  /** The leaves below one key. */
  function Block(es: Entries, k: string): (r: seq<(Path, string)>)
    requires k in Keys(es)
    decreases Table(es), 0, 0
    ensures forall i :: 0 <= i < |r| ==> r[i].0 != [] && r[i].0[0] == k
  {
    match Child(es, k)
    case Table(nested) => Nest(k, Flat(nested))
    case Leaf(text) => [([k], text)]
  }

  function Nest(k: string, xs: seq<(Path, string)>): (r: seq<(Path, string)>)
    ensures |r| == |xs| && forall i :: 0 <= i < |xs| ==> r[i] == ([k] + xs[i].0, xs[i].1)
  {
    seq(|xs|, i requires 0 <= i < |xs| => ([k] + xs[i].0, xs[i].1))
  }

  /** The dotted key of a path below `prefix`. */
  function FullKey(prefix: string, path: Path): string
    decreases |path|
  {
    if path == [] then prefix else FullKey(Extend(prefix, path[0]), path[1..])
  }

  function Lines(prefix: string, xs: seq<(Path, string)>): (lines: seq<string>)
    ensures |lines| == |xs|
  {
    seq(|xs|, i requires 0 <= i < |xs| => FullKey(prefix, xs[i].0) + ": " + xs[i].1)
  }

  lemma LinesAppend(prefix: string, a: seq<(Path, string)>, b: seq<(Path, string)>)
    ensures Lines(prefix, a + b) == Lines(prefix, a) + Lines(prefix, b)
  {
  }

  lemma NestLines(prefix: string, k: string, xs: seq<(Path, string)>)
    ensures Lines(prefix, Nest(k, xs)) == Lines(Extend(prefix, k), xs)
  {
    forall i | 0 <= i < |xs|
      ensures FullKey(prefix, ([k] + xs[i].0)) == FullKey(Extend(prefix, k), xs[i].0)
    {
      assert ([k] + xs[i].0)[1..] == xs[i].0;
    }
  }

  /** What the listing prints: one line `key: value` per leaf, the key the
      leaf's path joined with dots below the prefix. */
  lemma {:induction false} PrintIsFlat(prefix: string, es: Entries)
    ensures PrintSettingsFlat(prefix, es) == Lines(prefix, Flat(es))
    decreases Table(es), 1, 0
  {
    SortedKeys(es);
    PrintKeysIsFlat(prefix, es, Sort(Keys(es)));
  }

  lemma {:induction false} PrintKeysIsFlat(prefix: string, es: Entries, ks: seq<string>)
    requires forall k :: k in ks ==> k in Keys(es)
    ensures PrintKeys(prefix, es, ks) == Lines(prefix, FlatKeys(es, ks))
    decreases Table(es), 0, |ks|
  {
    if ks != [] {
      PrintEntryIsBlock(prefix, es, ks[0]);
      PrintKeysIsFlat(prefix, es, ks[1..]);
      LinesAppend(prefix, Block(es, ks[0]), FlatKeys(es, ks[1..]));
    }
  }

  lemma {:induction false} PrintEntryIsBlock(prefix: string, es: Entries, k: string)
    requires k in Keys(es)
    ensures PrintEntry(prefix, es, k) == Lines(prefix, Block(es, k))
    decreases Table(es), 0, 0
  {
    match Child(es, k)
    case Table(nested) =>
      PrintIsFlat(Extend(prefix, k), nested);
      NestLines(prefix, k, Flat(nested));
    case Leaf(text) =>
      assert [k][1..] == [];
      assert FullKey(prefix, [k]) == Extend(prefix, k);
  }

  /** Lexicographic order on key paths, component by component. */
  predicate PathLess(p: Path, q: Path) {
    if p == [] then q != []
    else if q == [] then false
    else if p[0] != q[0] then Less(p[0], q[0])
    else PathLess(p[1..], q[1..])
  }

  predicate PathsIncreasing(xs: seq<(Path, string)>) {
    forall i, j :: 0 <= i < j < |xs| ==> PathLess(xs[i].0, xs[j].0)
  }

  lemma NestIncreasing(k: string, xs: seq<(Path, string)>)
    requires PathsIncreasing(xs)
    ensures PathsIncreasing(Nest(k, xs))
  {
    var r := Nest(k, xs);
    forall i, j | 0 <= i < j < |r|
      ensures PathLess(r[i].0, r[j].0)
    {
      assert r[i].0[1..] == xs[i].0 && r[j].0[1..] == xs[j].0;
    }
  }

  lemma AppendIncreasing(a: seq<(Path, string)>, b: seq<(Path, string)>)
    requires PathsIncreasing(a) && PathsIncreasing(b)
    requires forall i, j :: 0 <= i < |a| && 0 <= j < |b| ==> PathLess(a[i].0, b[j].0)
    ensures PathsIncreasing(a + b)
  {
    var r := a + b;
    forall i, j | 0 <= i < j < |r|
      ensures PathLess(r[i].0, r[j].0)
    {
      if j < |a| {
        assert r[i] == a[i] && r[j] == a[j];
      } else if i >= |a| {
        assert r[i] == b[i - |a|] && r[j] == b[j - |a|];
      } else {
        assert r[i] == a[i] && r[j] == b[j - |a|];
      }
    }
  }

  lemma {:induction false} BlockIncreasing(es: Entries, k: string)
    requires WellFormed(Table(es)) && k in Keys(es)
    ensures PathsIncreasing(Block(es, k))
    decreases Table(es), 0, 0
  {
    assert WellFormed(Child(es, k));
    match Child(es, k)
    case Table(nested) =>
      FlatIncreasing(nested);
      NestIncreasing(k, Flat(nested));
    case Leaf(_) =>
  }

  /** The listing is in strictly increasing key-path order: the keys of
      every table appear sorted, and a nested table's lines stay together
      at its key's place. */
  lemma {:induction false} FlatIncreasing(es: Entries)
    requires WellFormed(Table(es))
    ensures PathsIncreasing(Flat(es))
    decreases Table(es), 1, 0
  {
    SortedKeys(es);
    SortDistinct(Keys(es));
    FlatKeysIncreasing(es, Sort(Keys(es)));
  }

  lemma {:induction false} FlatKeysIncreasing(es: Entries, ks: seq<string>)
    requires WellFormed(Table(es)) && Increasing(ks)
    requires forall k :: k in ks ==> k in Keys(es)
    ensures PathsIncreasing(FlatKeys(es, ks))
    decreases Table(es), 0, |ks|
  {
    if ks != [] {
      var a := Block(es, ks[0]);
      var b := FlatKeys(es, ks[1..]);
      BlockIncreasing(es, ks[0]);
      FlatKeysIncreasing(es, ks[1..]);
      forall i, j | 0 <= i < |a| && 0 <= j < |b|
        ensures PathLess(a[i].0, b[j].0)
      {
        var m :| 1 <= m < |ks| && ks[m] == b[j].0[0];
        LessIrreflexive(ks[0]);
      }
      AppendIncreasing(a, b);
    }
  }

  /** `path` leads from `s` through nested tables to a leaf holding `text`. */
  predicate LeafAt(s: Setting, path: Path, text: string) {
    match s
    case Leaf(t) => path == [] && t == text
    case Table(es) =>
      path != [] && exists i :: 0 <= i < |es| && es[i].0 == path[0] && LeafAt(es[i].1, path[1..], text)
  }

  lemma NestMember(k: string, xs: seq<(Path, string)>)
    ensures forall p, t :: (p, t) in Nest(k, xs) <==> p != [] && p[0] == k && (p[1..], t) in xs
  {
    forall p, t
      ensures (p, t) in Nest(k, xs) <==> p != [] && p[0] == k && (p[1..], t) in xs
    {
      if (p, t) in Nest(k, xs) {
        var i :| 0 <= i < |xs| && Nest(k, xs)[i] == (p, t);
        assert p[1..] == xs[i].0;
      }
      if p != [] && p[0] == k && (p[1..], t) in xs {
        var i :| 0 <= i < |xs| && xs[i] == (p[1..], t);
        assert p == [k] + p[1..];
        assert Nest(k, xs)[i] == (p, t);
      }
    }
  }

  lemma {:induction false} BlockLeaves(es: Entries, k: string)
    requires WellFormed(Table(es)) && k in Keys(es)
    ensures forall p, t :: (p, t) in Block(es, k) <==> p != [] && p[0] == k && LeafAt(Child(es, k), p[1..], t)
    decreases Table(es), 0, 0
  {
    assert WellFormed(Child(es, k));
    match Child(es, k)
    case Table(nested) =>
      FlatLeaves(nested);
      NestMember(k, Flat(nested));
    case Leaf(text) =>
      assert Block(es, k) == [([k], text)];
      forall p, t
        ensures (p, t) in Block(es, k) <==> p != [] && p[0] == k && LeafAt(Child(es, k), p[1..], t)
      {
        if p == [] {
          assert |p| != |[k]|;
        } else {
          assert LeafAt(Child(es, k), p[1..], t) <==> p[1..] == [] && text == t;
          assert (p, t) in Block(es, k) <==> p == [k] && t == text;
          assert p == [p[0]] + p[1..];
          assert p == [k] <==> p[0] == k && p[1..] == [];
        }
      }
  }

  lemma {:induction false} FlatKeysLeaves(es: Entries, ks: seq<string>)
    requires WellFormed(Table(es))
    requires forall k :: k in ks ==> k in Keys(es)
    ensures forall p, t :: (p, t) in FlatKeys(es, ks) <==>
              p != [] && p[0] in ks && LeafAt(Child(es, p[0]), p[1..], t)
    decreases Table(es), 0, |ks|
  {
    if ks != [] {
      BlockLeaves(es, ks[0]);
      FlatKeysLeaves(es, ks[1..]);
      assert forall k :: k in ks <==> k == ks[0] || k in ks[1..] by {
        assert ks == [ks[0]] + ks[1..];
      }
    }
  }

  /** Every line of the listing is a leaf of the settings and every leaf
      has a line: nothing is lost or invented, and only nested tables are
      descended into. */
  lemma {:induction false} FlatLeaves(es: Entries)
    requires WellFormed(Table(es))
    ensures forall p, t :: (p, t) in Flat(es) <==> LeafAt(Table(es), p, t)
    decreases Table(es), 1, 0
  {
    SortedKeys(es);
    FlatKeysLeaves(es, Sort(Keys(es)));
    forall p, t
      ensures (p, t) in Flat(es) <==> LeafAt(Table(es), p, t)
    {
      if LeafAt(Table(es), p, t) {
        var i :| 0 <= i < |es| && es[i].0 == p[0] && LeafAt(es[i].1, p[1..], t);
        assert Keys(es)[i] == p[0];
        var j := KeyIndex(es, p[0]);
        assert Keys(es)[j] == p[0];
        assert i == j;
      }
      if (p, t) in Flat(es) {
        assert LeafAt(es[KeyIndex(es, p[0])].1, p[1..], t);
      }
    }
  }
}
