/** The lexical part of Go's `path/filepath` on a Unix host: `Clean`, `Join`,
    `IsAbs`, `Rel`, `Base` and `Dir`. A path string is read as a `Lexical`
    value (rooted or not, plus its elements); cleaning is parsing followed by
    rendering, and the lemmas here show that rendering a clean value and
    parsing it back is the identity. */
module FilePath {
  import opened Results
  import opened Strings

  const Separator: char := '/'

  function IndexOf(s: string, c: char): (i: nat)
    requires c in s
    ensures i < |s| && s[i] == c && c !in s[..i]
  {
    if s[0] == c then 0
    else
      var i := 1 + IndexOf(s[1..], c);
      assert s[..i] == [s[0]] + s[1..][..i - 1];
      i
  }

  function LastIndexOf(s: string, c: char): (i: nat)
    requires c in s
    ensures i < |s| && s[i] == c && c !in s[i + 1..]
  {
    if s[|s| - 1] == c then |s| - 1
    else
      assert c in s[..|s| - 1] by {
        var j :| 0 <= j < |s| && s[j] == c;
        assert s[..|s| - 1][j] == c;
      }
      var i := LastIndexOf(s[..|s| - 1], c);
      assert s[i + 1..] == s[..|s| - 1][i + 1..] + [s[|s| - 1]];
      i
  }

  /** The fields of `s` between separators: never empty, no field holds one. */
  function Split(s: string): (parts: seq<string>)
    ensures |parts| >= 1
    ensures forall i :: 0 <= i < |parts| ==> Separator !in parts[i]
    decreases |s|
  {
    if Separator !in s then [s]
    else
      var i := IndexOf(s, Separator);
      [s[..i]] + Split(s[i + 1..])
  }

  lemma {:induction false} IndexOfAfter(a: string, b: string, c: char)
    requires c !in a && c in b
    ensures c in a + b && IndexOf(a + b, c) == |a| + IndexOf(b, c)
  {
    if a != [] {
      assert (a + b)[1..] == a[1..] + b;
      IndexOfAfter(a[1..], b, c);
    } else {
      assert a + b == b;
    }
  }

  lemma {:induction false} IndexOfWithin(a: string, b: string, c: char)
    requires c in a
    ensures IndexOf(a + b, c) == IndexOf(a, c)
  {
    if a[0] != c {
      assert a == [a[0]] + a[1..];
      assert c in a[1..];
      assert (a + b)[1..] == a[1..] + b;
      IndexOfWithin(a[1..], b, c);
    }
  }

  /** Splitting at the first separator when it is the one in the middle. */
  lemma SplitAtFirst(a: string, b: string)
    requires Separator !in a
    ensures Split(a + "/" + b) == [a] + Split(b)
  {
    var s := a + "/" + b;
    IndexOfAfter(a, "/" + b, Separator);
    assert s == a + ("/" + b);
    assert IndexOf(s, Separator) == |a|;
    assert s[..|a|] == a && s[|a| + 1..] == b;
  }

  /** Splitting at the first separator when it lies inside `a`. */
  lemma SplitInside(a: string, b: string)
    requires Separator in a
    ensures Split(a + "/" + b) ==
            [a[..IndexOf(a, Separator)]] + Split(a[IndexOf(a, Separator) + 1..] + "/" + b)
  {
    var s := a + "/" + b;
    var i := IndexOf(a, Separator);
    IndexOfWithin(a, "/" + b, Separator);
    assert s == a + ("/" + b);
    assert IndexOf(s, Separator) == i;
    assert s[..i] == a[..i];
    assert s[i + 1..] == a[i + 1..] + "/" + b;
  }

  lemma {:induction false} SplitConcat(a: string, b: string)
    ensures Split(a + "/" + b) == Split(a) + Split(b)
    decreases |a|
  {
    if Separator !in a {
      SplitAtFirst(a, b);
    } else {
      var i := IndexOf(a, Separator);
      SplitInside(a, b);
      SplitConcat(a[i + 1..], b);
    }
  }

  lemma {:induction false} SplitJoin(parts: seq<string>)
    requires |parts| >= 1
    requires forall i :: 0 <= i < |parts| ==> Separator !in parts[i]
    ensures Split(JoinWith(parts, "/")) == parts
  {
    if |parts| > 1 {
      SplitConcat(parts[0], JoinWith(parts[1..], "/"));
      SplitJoin(parts[1..]);
    }
  }

  lemma {:induction false} JoinSplit(s: string)
    ensures JoinWith(Split(s), "/") == s
    decreases |s|
  {
    if Separator in s {
      var i := IndexOf(s, Separator);
      JoinSplit(s[i + 1..]);
      assert s == s[..i] + "/" + s[i + 1..];
    }
  }

  lemma {:induction false} JoinAppend(a: seq<string>, b: seq<string>)
    requires |a| >= 1 && |b| >= 1
    ensures JoinWith(a + b, "/") == JoinWith(a, "/") + "/" + JoinWith(b, "/")
  {
    if |a| > 1 {
      assert (a + b)[1..] == a[1..] + b;
      JoinAppend(a[1..], b);
    } else {
      assert (a + b)[1..] == b;
    }
  }

  lemma {:induction false} JoinStartsWithFirst(parts: seq<string>)
    requires |parts| >= 1
    ensures parts[0] <= JoinWith(parts, "/")
    ensures |parts| > 1 ==> parts[0] + "/" <= JoinWith(parts, "/")
  {
    if |parts| > 1 {
      assert JoinWith(parts, "/") == parts[0] + "/" + JoinWith(parts[1..], "/");
    }
  }

  /** A path read lexically: rooted (begins with a separator) or not, and
      its elements in order. */
  datatype Lexical = Lexical(rooted: bool, elems: seq<string>)

  /** An element that names an entry: not empty, not `.` or `..`. */
  predicate IsName(e: string) {
    e != "" && e != "." && e != ".." && Separator !in e
  }

  /** The elements of a clean path: no empty or `.` element, no `..` in a
      rooted path, and in a relative path `..` only as a leading run. */
  predicate CleanElems(rooted: bool, e: seq<string>) {
    && (forall i :: 0 <= i < |e| ==> e[i] != "" && e[i] != "." && Separator !in e[i])
    && (rooted ==> forall i :: 0 <= i < |e| ==> e[i] != "..")
    && (forall i, j :: 0 <= i < j < |e| && e[j] == ".." ==> e[i] == "..")
  }

  predicate IsClean(p: Lexical) {
    CleanElems(p.rooted, p.elems)
  }

  /** One element of Go's cleaning pass over a stack of kept elements. */
  function Step(stack: seq<string>, e: string, rooted: bool): seq<string> {
    if e == "" || e == "." then stack
    else if e == ".." then
      if |stack| > 0 && stack[|stack| - 1] != ".." then stack[..|stack| - 1]
      else if rooted then stack
      else stack + [".."]
    else stack + [e]
  }

  function Fold(stack: seq<string>, es: seq<string>, rooted: bool): seq<string>
    decreases |es|
  {
    if es == [] then stack else Fold(Step(stack, es[0], rooted), es[1..], rooted)
  }

  function Parse(s: string): Lexical {
    var rooted := |s| > 0 && s[0] == Separator;
    Lexical(rooted, Fold([], Split(s), rooted))
  }

  function Render(p: Lexical): string {
    if p.rooted then
      if p.elems == [] then "/" else "/" + JoinWith(p.elems, "/")
    else
      if p.elems == [] then "." else JoinWith(p.elems, "/")
  }

  /** `filepath.Clean`. */
  function Clean(s: string): string {
    Render(Parse(s))
  }

  /** `filepath.IsAbs`. */
  predicate IsAbs(s: string) {
    |s| > 0 && s[0] == Separator
  }

  lemma {:induction false} FoldAppend(stack: seq<string>, a: seq<string>, b: seq<string>, rooted: bool)
    ensures Fold(stack, a + b, rooted) == Fold(Fold(stack, a, rooted), b, rooted)
    decreases |a|
  {
    if a != [] {
      assert (a + b)[0] == a[0] && (a + b)[1..] == a[1..] + b;
      FoldAppend(Step(stack, a[0], rooted), a[1..], b, rooted);
    } else {
      assert a + b == b;
    }
  }

  lemma {:induction false} FoldKeepsClean(stack: seq<string>, es: seq<string>, rooted: bool)
    requires CleanElems(rooted, stack)
    requires forall i :: 0 <= i < |es| ==> Separator !in es[i]
    ensures CleanElems(rooted, Fold(stack, es, rooted))
    decreases |es|
  {
    if es != [] {
      var next := Step(stack, es[0], rooted);
      assert CleanElems(rooted, next) by {
        if es[0] == ".." && !(|stack| > 0 && stack[|stack| - 1] != "..") && !rooted {
          assert forall i :: 0 <= i < |stack| ==> stack[i] == "..";
        }
      }
      FoldKeepsClean(next, es[1..], rooted);
    }
  }

  /** Parsing always yields a clean value. */
  lemma ParseIsClean(s: string)
    ensures IsClean(Parse(s))
  {
    var rooted := |s| > 0 && s[0] == Separator;
    FoldKeepsClean([], Split(s), rooted);
  }

  lemma {:induction false} FoldOfClean(stack: seq<string>, rest: seq<string>, rooted: bool)
    requires CleanElems(rooted, stack + rest)
    ensures Fold(stack, rest, rooted) == stack + rest
    decreases |rest|
  {
    if rest != [] {
      var all := stack + rest;
      assert all[|stack|] == rest[0];
      if rest[0] == ".." {
        assert forall i :: 0 <= i < |stack| ==> stack[i] == all[i] == "..";
      }
      assert Step(stack, rest[0], rooted) == stack + [rest[0]];
      assert (stack + [rest[0]]) + rest[1..] == all;
      FoldOfClean(stack + [rest[0]], rest[1..], rooted);
    } else {
      assert stack + rest == stack;
    }
  }

  /** Rendering a clean value and parsing it back gives the value again. */
  lemma ParseRender(p: Lexical)
    requires IsClean(p)
    ensures Parse(Render(p)) == p
  {
    if p.elems == [] {
      ParseRenderEmpty(p);
    } else if p.rooted {
      ParseRenderRooted(p);
    } else {
      ParseRenderRelative(p);
    }
  }

  lemma ParseRenderEmpty(p: Lexical)
    requires p.elems == []
    ensures Parse(Render(p)) == p
  {
    if p.rooted {
      SplitConcat("", "");
      assert Render(p) == "" + "/" + "";
      assert Split(Render(p)) == ["", ""];
    } else {
      assert Split(Render(p)) == ["."];
    }
  }

  lemma ParseRenderRooted(p: Lexical)
    requires IsClean(p) && p.rooted && p.elems != []
    ensures Parse(Render(p)) == p
  {
    var s := Render(p);
    SplitConcat("", JoinWith(p.elems, "/"));
    SplitJoin(p.elems);
    assert s == "" + "/" + JoinWith(p.elems, "/");
    assert Split(s) == [""] + p.elems;
    FoldAppend([], [""], p.elems, true);
    assert Fold([], [""], true) == [];
    FoldOfClean([], p.elems, true);
    assert [] + p.elems == p.elems;
  }

  lemma ParseRenderRelative(p: Lexical)
    requires IsClean(p) && !p.rooted && p.elems != []
    ensures Parse(Render(p)) == p
  {
    var s := Render(p);
    SplitJoin(p.elems);
    JoinStartsWithFirst(p.elems);
    assert s[0] == p.elems[0][0];
    FoldOfClean([], p.elems, false);
    assert [] + p.elems == p.elems;
  }

  /** Parsing a cleaned string gives what parsing the original gives. */
  lemma ParseClean(s: string)
    ensures Parse(Clean(s)) == Parse(s)
  {
    ParseIsClean(s);
    ParseRender(Parse(s));
  }

  /** `filepath.Clean` is idempotent. */
  lemma CleanIdempotent(s: string)
    ensures Clean(Clean(s)) == Clean(s)
  {
    ParseClean(s);
  }

  /** Two clean values render alike only when they are equal. */
  lemma RenderInjective(p: Lexical, q: Lexical)
    requires IsClean(p) && IsClean(q)
    ensures Render(p) == Render(q) <==> p == q
  {
    if Render(p) == Render(q) {
      ParseRender(p);
      ParseRender(q);
    }
  }

  /** Cleaning keeps a path absolute or relative. */
  lemma CleanKeepsRootedness(s: string)
    ensures IsAbs(Clean(s)) <==> IsAbs(s)
  {
    var p := Parse(s);
    ParseIsClean(s);
    if !p.rooted && p.elems != [] {
      JoinStartsWithFirst(p.elems);
      assert Clean(s)[0] == p.elems[0][0];
      assert p.elems[0][0] in p.elems[0];
    }
  }

  /** `filepath.Join`: leading empty elements are skipped, the rest joined
      with the separator and cleaned; all-empty gives the empty string. */
  function Join(elems: seq<string>): string {
    if elems == [] then ""
    else if elems[0] == "" then Join(elems[1..])
    else Clean(JoinWith(elems, "/"))
  }

  /** A non-empty result of `Join` is already clean. */
  lemma {:induction false} JoinIsClean(elems: seq<string>)
    ensures Join(elems) == "" || Clean(Join(elems)) == Join(elems)
  {
    if elems != [] && elems[0] == "" {
      JoinIsClean(elems[1..]);
    } else if elems != [] {
      CleanIdempotent(JoinWith(elems, "/"));
    }
  }

  lemma RenderNonEmpty(p: Lexical)
    requires IsClean(p)
    ensures Render(p) != ""
  {
    if !p.rooted && p.elems != [] {
      JoinStartsWithFirst(p.elems);
    }
  }

  /** `filepath.Join(a, b)` with a non-empty `b` is never empty. */
  lemma JoinNonEmpty(a: string, b: string)
    requires b != ""
    ensures Join([a, b]) != ""
  {
    if a == "" {
      assert [a, b][1..] == [b];
      assert JoinWith([b], "/") == b;
      ParseIsClean(b);
      RenderNonEmpty(Parse(b));
    } else {
      ParseIsClean(JoinWith([a, b], "/"));
      RenderNonEmpty(Parse(JoinWith([a, b], "/")));
    }
  }

  /** Joining onto an absolute directory gives an absolute path. */
  lemma JoinOntoAbs(dir: string, rest: string)
    requires IsAbs(dir)
    ensures IsAbs(Join([dir, rest]))
  {
    assert JoinWith([dir, rest], "/") == dir + "/" + rest;
    assert IsAbs(dir + "/" + rest);
    CleanKeepsRootedness(dir + "/" + rest);
  }

  predicate AllNames(names: seq<string>) {
    forall i :: 0 <= i < |names| ==> IsName(names[i])
  }

  lemma CleanAppendNames(rooted: bool, e: seq<string>, names: seq<string>)
    requires CleanElems(rooted, e) && AllNames(names)
    ensures CleanElems(rooted, e + names)
  {
    var all := e + names;
    assert forall i :: 0 <= i < |all| ==> all[i] == if i < |e| then e[i] else names[i - |e|];
  }

  /** Appending names to a non-empty base extends its elements. */
  lemma ParseAppendNames(base: string, names: seq<string>)
    requires base != "" && |names| >= 1 && AllNames(names)
    ensures Parse(base + "/" + JoinWith(names, "/")) ==
            Lexical(Parse(base).rooted, Parse(base).elems + names)
  {
    var s := base + "/" + JoinWith(names, "/");
    var b := Parse(base);
    assert Split(s) == Split(base) + names by {
      SplitConcat(base, JoinWith(names, "/"));
      SplitJoin(names);
    }
    assert s[0] == base[0];
    assert Fold([], Split(s), b.rooted) == Fold(b.elems, names, b.rooted) by {
      FoldAppend([], Split(base), names, b.rooted);
    }
    ParseIsClean(base);
    CleanAppendNames(b.rooted, b.elems, names);
    FoldOfClean(b.elems, names, b.rooted);
  }

  /** `filepath.Join(base, n1, …, nk)` with plain names: the base's
      elements followed by the names. */
  lemma JoinNames(base: string, names: seq<string>)
    requires base != "" && |names| >= 1 && AllNames(names)
    ensures Join([base] + names) == Render(Lexical(Parse(base).rooted, Parse(base).elems + names))
    ensures Join([base, JoinWith(names, "/")]) == Join([base] + names)
  {
    ParseAppendNames(base, names);
    assert ([base] + names)[1..] == names;
    assert JoinWith([base] + names, "/") == base + "/" + JoinWith(names, "/");
    assert JoinWith([base, JoinWith(names, "/")], "/") == base + "/" + JoinWith(names, "/");
  }

  /** `filepath.Join(base, n1, …, nk)` read back: the base's clean
      elements followed by the names, clean, and absolute with the base. */
  lemma JoinBelow(base: string, names: seq<string>)
    requires base != "" && |names| >= 1 && AllNames(names)
    ensures Parse(Join([base] + names)) == Lexical(Parse(base).rooted, Parse(base).elems + names)
    ensures Clean(Join([base] + names)) == Join([base] + names)
    ensures IsAbs(base) ==> IsAbs(Join([base] + names))
  {
    JoinNames(base, names);
    var p := Lexical(Parse(base).rooted, Parse(base).elems + names);
    ParseIsClean(base);
    CleanAppendNames(p.rooted, Parse(base).elems, names);
    ParseRender(p);
    if IsAbs(base) {
      assert Render(p) == "/" + JoinWith(p.elems, "/");
    }
  }

  /** `filepath.Join("", n1, …, nk)` with plain names: the empty leading
      element is skipped and the names are joined as they are, giving a
      relative path. */
  lemma JoinOntoEmpty(names: seq<string>)
    requires |names| >= 1 && AllNames(names)
    ensures Join([""] + names) == JoinWith(names, "/")
  {
    assert Join([""] + names) == Join(names) by {
      assert ([""] + names)[1..] == names;
    }
    var p := Lexical(false, names);
    assert IsClean(p) by {
      CleanAppendNames(false, [], names);
      assert [] + names == names;
    }
    ParseRender(p);
    assert IsName(names[0]);
  }

  datatype RelError = CannotMakeRelative

  function CommonPrefix(a: seq<string>, b: seq<string>): (k: nat)
    ensures k <= |a| && k <= |b| && a[..k] == b[..k]
    ensures k < |a| && k < |b| ==> a[k] != b[k]
  {
    if a == [] || b == [] || a[0] != b[0] then 0
    else
      var k := 1 + CommonPrefix(a[1..], b[1..]);
      assert a[..k] == [a[0]] + a[1..][..k - 1];
      assert b[..k] == [b[0]] + b[1..][..k - 1];
      k
  }

  /** `..` repeated `n` times, separated. */
  function Ups(n: nat): (r: string)
    requires n >= 1
    ensures HasPrefix(r, "..")
  {
    if n == 1 then ".." else ".." + "/" + Ups(n - 1)
  }

  /** `filepath.Rel(basepath, targpath)`. */
  function Rel(basepath: string, targpath: string): Result<string, RelError> {
    var base := Clean(basepath);
    var targ := Clean(targpath);
    if targ == base then Success(".")
    else RelLexical(Parse(base), Parse(targ))
  }

  /** The element walk of `filepath.Rel` once both sides are clean and
      differ. A relative target that cleaned to `.` takes part as the one
      element `.`, as in the string walk. */
  function RelLexical(b: Lexical, t: Lexical): Result<string, RelError> {
    if b.rooted != t.rooted then Failure(CannotMakeRelative)
    else
      var te := if !t.rooted && t.elems == [] then ["."] else t.elems;
      var k := CommonPrefix(b.elems, te);
      if k < |b.elems| && b.elems[k] == ".." then Failure(CannotMakeRelative)
      else if k < |b.elems| then
        Success(Ups(|b.elems| - k) + (if k < |te| then "/" + JoinWith(te[k..], "/") else ""))
      else Success(JoinWith(te[k..], "/"))
  }

  lemma {:induction false} CommonPrefixOfExtension(a: seq<string>, b: seq<string>)
    ensures CommonPrefix(a, a + b) == |a|
  {
    if a != [] {
      assert (a + b)[1..] == a[1..] + b;
      CommonPrefixOfExtension(a[1..], b);
    }
  }

  /** A path that extends the base by plain names is reached from it by
      exactly those names. */
  lemma RelOfExtension(basepath: string, targpath: string, names: seq<string>)
    requires AllNames(names)
    requires Parse(targpath) == Lexical(Parse(basepath).rooted, Parse(basepath).elems + names)
    ensures Rel(basepath, targpath) == Success(if names == [] then "." else JoinWith(names, "/"))
  {
    var b := Parse(basepath);
    var t := Parse(targpath);
    ParseClean(basepath);
    ParseClean(targpath);
    ParseIsClean(basepath);
    ParseIsClean(targpath);
    RenderInjective(b, t);
    if names == [] {
      assert b.elems + names == b.elems;
    } else {
      assert |t.elems| > |b.elems|;
      CommonPrefixOfExtension(b.elems, names);
      assert t.elems[|b.elems|..] == names;
    }
  }

  /** The clean elements of `filepath.Join(dir, name)` for a plain name. */
  lemma ParseJoinedName(dir: string, name: string)
    requires IsName(name)
    ensures Parse(Join([dir, name])) == Lexical(Parse(dir).rooted, Parse(dir).elems + [name])
  {
    JoinedName(dir, name);
    ParseIsClean(dir);
    CleanAppendNames(Parse(dir).rooted, Parse(dir).elems, [name]);
    ParseRender(Lexical(Parse(dir).rooted, Parse(dir).elems + [name]));
  }

  /** What `!strings.HasPrefix(rel, "..")` after a successful `Rel` decides:
      both sides rooted alike, the base's elements a prefix of the target's,
      and the first further element, if any, not beginning with `..`. */
  predicate BelowAsWritten(target: Lexical, base: Lexical) {
    && target.rooted == base.rooted
    && base.elems <= target.elems
    && (|base.elems| < |target.elems| ==> !HasPrefix(target.elems[|base.elems|], ".."))
  }

  lemma {:induction false} JoinDotDotPrefix(parts: seq<string>)
    requires |parts| >= 1
    ensures HasPrefix(JoinWith(parts, "/"), "..") <==> HasPrefix(parts[0], "..")
  {
    JoinStartsWithFirst(parts);
    var j := JoinWith(parts, "/");
    if |parts| > 1 && |parts[0]| < 2 {
      assert (parts[0] + "/")[|parts[0]|] == '/';
      assert j[|parts[0]|] == '/';
    }
    if |parts| > 1 && |parts[0]| >= 2 {
      assert j[..2] == parts[0][..2];
    }
  }

  lemma RelAsWritten(basepath: string, targpath: string)
    ensures (Rel(basepath, targpath).Success? && !HasPrefix(Rel(basepath, targpath).value, ".."))
            <==> BelowAsWritten(Parse(targpath), Parse(basepath))
  {
    var b := Parse(basepath);
    var t := Parse(targpath);
    ParseIsClean(basepath);
    ParseIsClean(targpath);
    assert Rel(basepath, targpath) == if b == t then Success(".") else RelLexical(b, t) by {
      ParseClean(basepath);
      ParseClean(targpath);
      RenderInjective(b, t);
    }
    if b != t {
      RelLexicalBelow(b, t);
    }
  }

  /** The element walk of `Rel` on two different clean paths gives a result
      not beginning with `..` exactly when the target is below the base as
      the mount rules read it. */
  lemma RelLexicalBelow(b: Lexical, t: Lexical)
    requires IsClean(b) && IsClean(t) && b != t
    ensures (RelLexical(b, t).Success? && !HasPrefix(RelLexical(b, t).value, ".."))
            <==> BelowAsWritten(t, b)
  {
    if b.rooted == t.rooted {
      if !t.rooted && t.elems == [] {
        assert b.elems != [];
        assert CommonPrefix(b.elems, ["."]) == 0;
      } else {
        var k := CommonPrefix(b.elems, t.elems);
        if k == |b.elems| {
          assert t.elems[..k] == b.elems;
          assert |t.elems| > k by {
            assert t.elems == t.elems[..|t.elems|];
          }
          JoinDotDotPrefix(t.elems[k..]);
        }
      }
    }
  }

  function TrimTrailingSeparators(s: string): (r: string)
    ensures r <= s
    ensures r == [] || r[|r| - 1] != Separator
    ensures forall i :: |r| <= i < |s| ==> s[i] == Separator
  {
    if s == [] || s[|s| - 1] != Separator then s
    else TrimTrailingSeparators(s[..|s| - 1])
  }

  /** `filepath.Base`: the last element after trailing separators are
      removed; `.` for the empty path and `/` for a path of separators. */
  function Base(path: string): (r: string)
    ensures r != ""
    ensures path != "" && r != "/" ==> Separator !in r
  {
    if path == "" then "."
    else
      var p := TrimTrailingSeparators(path);
      if p == "" then "/"
      else if Separator in p then p[LastIndexOf(p, Separator) + 1..]
      else p
  }

  /** `filepath.Dir`: everything up to the last separator, cleaned. */
  function Dir(path: string): string {
    if Separator in path then Clean(path[..LastIndexOf(path, Separator) + 1])
    else Clean("")
  }

  /** The text a clean path with one more element ends in, before that
      element. */
  function Lead(rooted: bool, elems: seq<string>): string {
    if elems == [] then (if rooted then "/" else "")
    else Render(Lexical(rooted, elems)) + "/"
  }

  lemma RenderSnoc(rooted: bool, elems: seq<string>, n: string)
    ensures Render(Lexical(rooted, elems + [n])) == Lead(rooted, elems) + n
  {
    if elems != [] {
      JoinAppend(elems, [n]);
    } else {
      assert elems + [n] == [n];
    }
  }

  lemma {:induction false} CleanTrailingSeparator(p: Lexical)
    requires IsClean(p) && p.elems != []
    ensures Clean(Render(p) + "/") == Render(p)
  {
    var r := Render(p);
    ParseRender(p);
    SplitConcat(r, "");
    assert r + "/" == r + "/" + "";
    FoldAppend([], Split(r), [""], p.rooted);
    assert (r + "/")[0] == r[0];
  }

  lemma {:induction false} LastIndexOfBefore(a: string, b: string, c: char)
    requires c in a && c !in b
    ensures c in a + b && LastIndexOf(a + b, c) == LastIndexOf(a, c)
    decreases |b|
  {
    if b == [] {
      assert a + b == a;
    } else {
      var s := a + b;
      assert s[..|s| - 1] == a + b[..|b| - 1];
      LastIndexOfBefore(a, b[..|b| - 1], c);
    }
  }

  /** `filepath.Join(dir, name)` followed by `Base` gives the name back. */
  lemma BaseOfJoin(dir: string, name: string)
    requires IsName(name)
    ensures Base(Join([dir, name])) == name
  {
    var j := Join([dir, name]);
    var p := Parse(dir);
    JoinedName(dir, name);
    RenderSnoc(p.rooted, p.elems, name);
    var lead := Lead(p.rooted, p.elems);
    assert j == lead + name;
    assert TrimTrailingSeparators(j) == j;
    if lead != "" {
      assert LastIndexOf(lead, Separator) == |lead| - 1;
      LastIndexOfBefore(lead, name, Separator);
      assert j[|lead|..] == name;
    } else {
      assert j == name;
    }
  }

  /** `filepath.Join(dir, name)` followed by `Dir` gives the cleaned dir. */
  lemma DirOfJoin(dir: string, name: string)
    requires IsName(name)
    ensures Dir(Join([dir, name])) == Clean(dir)
  {
    var j := Join([dir, name]);
    var p := Parse(dir);
    JoinedName(dir, name);
    RenderSnoc(p.rooted, p.elems, name);
    ParseIsClean(dir);
    var lead := Lead(p.rooted, p.elems);
    assert j == lead + name;
    if lead != "" {
      assert LastIndexOf(lead, Separator) == |lead| - 1;
      LastIndexOfBefore(lead, name, Separator);
      assert j[..|lead|] == lead;
      if p.elems == [] {
        SplitConcat("", "");
        assert "/" == "" + "/" + "";
        assert Split("/") == ["", ""];
      } else {
        CleanTrailingSeparator(p);
      }
    } else {
      assert Separator !in j;
      assert Split("") == [""];
    }
  }

  /** `filepath.Join(dir, name)` for a plain name is the dir's clean
      elements with the name appended. */
  lemma JoinedName(dir: string, name: string)
    requires IsName(name)
    ensures Join([dir, name]) == Render(Lexical(Parse(dir).rooted, Parse(dir).elems + [name]))
  {
    if dir == "" {
      assert [dir, name][1..] == [name];
      assert Split(name) == [name];
      assert Parse(dir) == Lexical(false, []) by { assert Split("") == [""]; }
      assert Fold([], [name], false) == Fold([name], [], false) == [name];
      assert Parse(name) == Lexical(false, [name]);
    } else {
      JoinNames(dir, [name]);
      assert [dir] + [name] == [dir, name];
    }
  }
}
