/**
 * lib/util.js: the tool-installation probe, the path-existence check, the
 * non-blank-string test and the resolution of a package root against the
 * working directory. Spawning the probe command and touching the filesystem
 * are oracles: `probeSucceeds` says whether a probe command exits normally,
 * `existing` whether a resolved path exists.
 */
module Util {
  import opened Wrappers
  import opened JsValues

  // ---------------------------------------------------------------------------
  // isTypeInstalled

  /** A probe command run without arguments other than its flags. */
  datatype Probe = Probe(tool: string, args: seq<string>)

  /** The probe command for a package type, or None for a type outside the switch. */
  function ProbeFor(pkgType: JsValue): (p: Option<Probe>)
    ensures p.Some? ==> p.value.args == ["--version"]
  {
    if pkgType == Str("yarn") || pkgType == Str("yarn-berry") then Some(Probe("yarn", ["--version"]))
    else if pkgType == Str("npm") then Some(Probe("npm", ["--version"]))
    else if pkgType == Str("maven") then Some(Probe("mvn", ["--version"]))
    else None
  }

  /** isTypeInstalled: false exactly when the probe command fails; a type the
      switch does not list is reported as installed without probing. */
  function IsTypeInstalled(pkgType: JsValue, probeSucceeds: Probe -> bool): (installed: bool)
    ensures !(pkgType in {Str("yarn"), Str("yarn-berry"), Str("npm"), Str("maven")}) ==> installed
  {
    match ProbeFor(pkgType)
    case None => true
    case Some(p) => probeSucceeds(p)
  }

  /** yarn and yarn-berry share the probe `yarn --version`, so they always get
      the same answer; npm and maven each consult their own tool. */
  lemma {:induction false} ProbesPerType(probeSucceeds: Probe -> bool)
    ensures IsTypeInstalled(Str("yarn-berry"), probeSucceeds) == IsTypeInstalled(Str("yarn"), probeSucceeds)
    ensures IsTypeInstalled(Str("yarn"), probeSucceeds) == probeSucceeds(Probe("yarn", ["--version"]))
    ensures IsTypeInstalled(Str("npm"), probeSucceeds) == probeSucceeds(Probe("npm", ["--version"]))
    ensures IsTypeInstalled(Str("maven"), probeSucceeds) == probeSucceeds(Probe("mvn", ["--version"]))
  {
  }

  /** A type outside the switch gets the same answer whatever the environment. */
  lemma {:induction false} UnlistedTypeNotProbed(pkgType: JsValue, p1: Probe -> bool, p2: Probe -> bool)
    requires ProbeFor(pkgType).None?
    ensures IsTypeInstalled(pkgType, p1) && IsTypeInstalled(pkgType, p2)
  {
  }

  // ---------------------------------------------------------------------------
  // isNonEmptyString

  /** The characters String.prototype.trim removes: WhiteSpace (including every
      Zs space separator) and LineTerminator of ECMA-262. */
  predicate IsJsWhitespace(c: char)
  {
    || c == '\t' || c == '\U{000B}' || c == '\U{000C}' || c == ' '
    || c == '\U{00A0}' || c == '\U{FEFF}' || c == '\U{1680}'
    || ('\U{2000}' <= c <= '\U{200A}')
    || c == '\U{202F}' || c == '\U{205F}' || c == '\U{3000}'
    || c == '\n' || c == '\r' || c == '\U{2028}' || c == '\U{2029}'
  }

  predicate AllWhitespace(s: string)
  {
    forall i :: 0 <= i < |s| ==> IsJsWhitespace(s[i])
  }

  /** The leading whitespace removed. */
  function TrimStart(s: string): (t: string)
    ensures t == "" <==> AllWhitespace(s)
    ensures t == "" || !IsJsWhitespace(t[0])
  {
    if |s| > 0 && IsJsWhitespace(s[0]) then
      var t := TrimStart(s[1..]);
      assert forall i :: 1 <= i < |s| ==> s[i] == s[1..][i - 1];
      t
    else s
  }

  /** What TrimStart drops is whitespace, and what it keeps is a suffix. */
  lemma {:induction false} TrimStartSuffix(s: string)
    ensures var t := TrimStart(s);
            |t| <= |s| && t == s[|s| - |t|..] && AllWhitespace(s[..|s| - |t|])
    decreases |s|
  {
    if |s| > 0 && IsJsWhitespace(s[0]) {
      TrimStartSuffix(s[1..]);
      var t := TrimStart(s[1..]);
      var k := |s| - |t|;
      assert s[k..] == s[1..][k - 1..];
      assert s[..k] == [s[0]] + s[1..][..k - 1];
      WhitespaceCons(s[0], s[1..][..k - 1]);
    }
  }

  /** Prefixing one whitespace character keeps a string all whitespace. */
  lemma {:induction false} WhitespaceCons(c: char, s: string)
    requires IsJsWhitespace(c) && AllWhitespace(s)
    ensures AllWhitespace([c] + s)
  {
  }

  /** The trailing whitespace removed: what is dropped is whitespace, and
      what is kept is a prefix ending with a non-whitespace character. */
  function TrimEnd(s: string): (t: string)
    ensures t == "" <==> AllWhitespace(s)
    ensures t == "" || !IsJsWhitespace(t[|t| - 1])
    ensures |t| <= |s| && t == s[..|t|] && AllWhitespace(s[|t|..])
  {
    if |s| > 0 && IsJsWhitespace(s[|s| - 1]) then
      var t := TrimEnd(s[..|s| - 1]);
      assert forall i :: 0 <= i < |s| - 1 ==> s[i] == s[..|s| - 1][i];
      t
    else s
  }

  /** String.prototype.trim: empty exactly for an all-whitespace string, and
      otherwise starting and ending with a non-whitespace character. */
  function Trim(s: string): (t: string)
    ensures t == "" <==> AllWhitespace(s)
    ensures t == "" || (!IsJsWhitespace(t[0]) && !IsJsWhitespace(t[|t| - 1]))
  {
    TrimEnd(TrimStart(s))
  }

  /** isNonEmptyString: a string whose trimmed form is non-empty, that is, a
      string holding at least one non-whitespace character. */
  function IsNonEmptyString(v: JsValue): (b: bool)
    ensures b <==> v.Str? && exists i :: 0 <= i < |v.s| && !IsJsWhitespace(v.s[i])
  {
    v.Str? && Trim(v.s) != ""
  }

  // ---------------------------------------------------------------------------
  // getResolvedPath

  const Separator: char := '/'

  /** path.isAbsolute on a POSIX system. */
  predicate IsAbsolute(p: string)
  {
    |p| > 0 && p[0] == Separator
  }

  /** String.prototype.split with a one-character separator. */
  function Split(s: string, sep: char): (parts: seq<string>)
    ensures |parts| >= 1
    ensures forall i :: 0 <= i < |parts| ==> sep !in parts[i]
  {
    if |s| == 0 then [""]
    else
      var rest := Split(s[1..], sep);
      if s[0] == sep then [""] + rest
      else [[s[0]] + rest[0]] + rest[1..]
  }

  /** Array.prototype.join with a one-character separator. */
  function Join(parts: seq<string>, sep: char): string
  {
    if |parts| == 0 then ""
    else if |parts| == 1 then parts[0]
    else parts[0] + [sep] + Join(parts[1..], sep)
  }

  /** Joining what split produced gives back the string. */
  lemma {:induction false} JoinSplit(s: string, sep: char)
    ensures Join(Split(s, sep), sep) == s
  {
    if |s| > 0 {
      var rest := Split(s[1..], sep);
      JoinSplit(s[1..], sep);
      if s[0] == sep {
        assert Split(s, sep) == [""] + rest;
        assert Join([""] + rest, sep) == "" + [sep] + Join(rest, sep);
      } else {
        var parts := Split(s, sep);
        assert parts == [[s[0]] + rest[0]] + rest[1..];
        if |rest| == 1 {
          assert Join(rest, sep) == rest[0];
        } else {
          assert Join(rest, sep) == rest[0] + [sep] + Join(rest[1..], sep);
          assert parts[1..] == rest[1..];
        }
        assert s == [s[0]] + s[1..];
      }
    }
  }

  /** Splitting a string and a separated tail. */
  lemma {:induction false} SplitPrefix(a: string, b: string, sep: char)
    requires sep !in a
    ensures Split(a + [sep] + b, sep) == [a] + Split(b, sep)
    ensures Split(a, sep) == [a]
  {
    if |a| == 0 {
      assert a + [sep] + b == [sep] + b;
      assert ([sep] + b)[1..] == b;
    } else {
      SplitPrefix(a[1..], b, sep);
      assert (a + [sep] + b)[1..] == a[1..] + [sep] + b;
      assert a == [a[0]] + a[1..];
    }
  }

  /** Splitting what join produced gives back the parts, when no part holds the separator. */
  lemma {:induction false} SplitJoin(parts: seq<string>, sep: char)
    requires |parts| >= 1
    requires forall i :: 0 <= i < |parts| ==> sep !in parts[i]
    ensures Split(Join(parts, sep), sep) == parts
  {
    if |parts| == 1 {
      SplitPrefix(parts[0], "", sep);
    } else {
      SplitJoin(parts[1..], sep);
      SplitPrefix(parts[0], Join(parts[1..], sep), sep);
      assert parts == [parts[0]] + parts[1..];
    }
  }

  /** A segment of a normalised path: not empty, not `.` or `..`, no separator. */
  predicate IsPlainSegment(seg: string)
  {
    seg != "" && seg != "." && seg != ".." && Separator !in seg
  }

  predicate AllPlain(segs: seq<string>)
  {
    forall i :: 0 <= i < |segs| ==> IsPlainSegment(segs[i])
  }

  predicate NoSeparator(segs: seq<string>)
  {
    forall i :: 0 <= i < |segs| ==> Separator !in segs[i]
  }

  /** One step of path.resolve's normalisation: empty and `.` segments are
      dropped, `..` removes the last segment (and stays at the root). */
  function PushSegment(stack: seq<string>, seg: string): seq<string>
  {
    if seg == "" || seg == "." then stack
    else if seg == ".." then (if |stack| == 0 then stack else stack[..|stack| - 1])
    else stack + [seg]
  }

  function NormalizeOnto(stack: seq<string>, segs: seq<string>): (r: seq<string>)
    ensures AllPlain(stack) && NoSeparator(segs) ==> AllPlain(r)
    decreases |segs|
  {
    if |segs| == 0 then stack
    else
      assert NoSeparator(segs) ==> NoSeparator(segs[1..]) by {
        assert forall i :: 0 <= i < |segs| - 1 ==> segs[1..][i] == segs[i + 1];
      }
      NormalizeOnto(PushSegment(stack, segs[0]), segs[1..])
  }

  /** getResolvedPath: an absolute path is kept as it is; a relative one is split
      on `/` and resolved under `cwd` into a normalised absolute path. */
  function GetResolvedPath(dPath: string, cwd: string): (r: string)
    ensures IsAbsolute(r)
    ensures IsAbsolute(dPath) ==> r == dPath
  {
    if IsAbsolute(dPath) then dPath
    else [Separator] + Join(NormalizeOnto([], Split(cwd, Separator) + Split(dPath, Separator)), Separator)
  }

  /** The absolute path with the given segments. */
  function AbsolutePath(segs: seq<string>): string
  {
    [Separator] + Join(segs, Separator)
  }

  /** Plain segments are pushed as they are. */
  lemma {:induction false} NormalizePlain(stack: seq<string>, segs: seq<string>)
    requires AllPlain(segs)
    ensures NormalizeOnto(stack, segs) == stack + segs
    decreases |segs|
  {
    if |segs| > 0 {
      assert AllPlain(segs[1..]) by {
        assert forall i :: 0 <= i < |segs| - 1 ==> segs[1..][i] == segs[i + 1];
      }
      NormalizePlain(stack + [segs[0]], segs[1..]);
      assert stack + [segs[0]] + segs[1..] == stack + segs;
    }
  }

  /** Normalising a concatenation is normalising the second part onto the first's result. */
  lemma {:induction false} NormalizeSplit(stack: seq<string>, a: seq<string>, b: seq<string>)
    ensures NormalizeOnto(stack, a + b) == NormalizeOnto(NormalizeOnto(stack, a), b)
    decreases |a|
  {
    if |a| > 0 {
      assert (a + b)[0] == a[0];
      assert (a + b)[1..] == a[1..] + b;
      NormalizeSplit(PushSegment(stack, a[0]), a[1..], b);
    } else {
      assert a + b == b;
    }
  }

  lemma {:induction false} JoinAppend(a: seq<string>, b: seq<string>, sep: char)
    requires |a| >= 1 && |b| >= 1
    ensures Join(a + b, sep) == Join(a, sep) + [sep] + Join(b, sep)
  {
    if |a| == 1 {
      assert (a + b)[1..] == b;
    } else {
      JoinAppend(a[1..], b, sep);
      assert (a + b)[1..] == a[1..] + b;
    }
  }

  lemma {:induction false} SplitAbsolute(cwdSegs: seq<string>)
    requires |cwdSegs| >= 1 && AllPlain(cwdSegs)
    ensures Split(AbsolutePath(cwdSegs), Separator) == [""] + cwdSegs
  {
    SplitJoin(cwdSegs, Separator);
    SplitPrefix("", Join(cwdSegs, Separator), Separator);
    assert AbsolutePath(cwdSegs) == "" + [Separator] + Join(cwdSegs, Separator);
  }

  lemma {:induction false} SplitRelative(relParts: seq<string>)
    requires |relParts| >= 1 && NoSeparator(relParts) && relParts[0] != ""
    ensures !IsAbsolute(Join(relParts, Separator))
    ensures Split(Join(relParts, Separator), Separator) == relParts
  {
    var rel := Join(relParts, Separator);
    SplitJoin(relParts, Separator);
    var first := relParts[0];
    assert |first| > 0 && first[0] != Separator;
    if |relParts| > 1 {
      assert rel == first + [Separator] + Join(relParts[1..], Separator);
    }
    assert rel[0] == first[0];
  }

  /** The segments path.resolve sees for a relative path under a normalised cwd. */
  lemma {:induction false} ResolvedSegments(cwdSegs: seq<string>, relParts: seq<string>)
    requires |cwdSegs| >= 1 && AllPlain(cwdSegs)
    requires |relParts| >= 1 && NoSeparator(relParts) && relParts[0] != ""
    ensures GetResolvedPath(Join(relParts, Separator), AbsolutePath(cwdSegs))
              == AbsolutePath(NormalizeOnto(cwdSegs, relParts))
  {
    var cwd := AbsolutePath(cwdSegs);
    var rel := Join(relParts, Separator);
    SplitRelative(relParts);
    SplitAbsolute(cwdSegs);
    var all := [""] + cwdSegs + relParts;
    assert Split(cwd, Separator) + Split(rel, Separator) == all;
    assert all == [""] + (cwdSegs + relParts);
    assert NormalizeOnto([], all) == NormalizeOnto([], cwdSegs + relParts) by {
      assert all[0] == "" && all[1..] == cwdSegs + relParts;
      assert PushSegment([], "") == [];
    }
    NormalizeSplit([], cwdSegs, relParts);
    NormalizePlain([], cwdSegs);
    assert [] + cwdSegs == cwdSegs;
  }

  /** A relative path of plain segments, with or without a leading `./`, lands
      directly under a normalised working directory: `./maven` under `/w/d`
      is `/w/d/maven`. */
  lemma {:induction false} ResolveUnderCwd(cwdSegs: seq<string>, relSegs: seq<string>, dotted: bool)
    requires |cwdSegs| >= 1 && AllPlain(cwdSegs)
    requires |relSegs| >= 1 && AllPlain(relSegs)
    ensures GetResolvedPath(Join(if dotted then ["."] + relSegs else relSegs, Separator), AbsolutePath(cwdSegs))
              == AbsolutePath(cwdSegs) + [Separator] + Join(relSegs, Separator)
  {
    var relParts := if dotted then ["."] + relSegs else relSegs;
    assert NoSeparator(relParts) by {
      assert forall i :: 0 <= i < |relParts| ==> relParts[i] == "." || relParts[i] in relSegs;
    }
    ResolvedSegments(cwdSegs, relParts);
    if dotted {
      assert relParts[0] == "." && relParts[1..] == relSegs;
      assert NormalizeOnto(cwdSegs, relParts) == NormalizeOnto(cwdSegs, relSegs);
    }
    NormalizePlain(cwdSegs, relSegs);
    JoinAppend(cwdSegs, relSegs, Separator);
  }

  // ---------------------------------------------------------------------------
  // pathExists

  /** pathExists: the existence oracle is asked about the resolved path. */
  function PathExists(dPath: string, cwd: string, existing: string -> bool): (found: bool)
    ensures IsAbsolute(dPath) ==> (found <==> existing(dPath))
  {
    existing(GetResolvedPath(dPath, cwd))
  }

  /** The raw relative input is never what is looked up: `./maven` under a
      normalised `cwd` is checked as `cwd/maven`, an absolute path as itself. */
  lemma {:induction false} PathExistsChecksResolvedPath(cwdSegs: seq<string>, relSegs: seq<string>, existing: string -> bool)
    requires |cwdSegs| >= 1 && AllPlain(cwdSegs)
    requires |relSegs| >= 1 && AllPlain(relSegs)
    ensures PathExists(Join(["."] + relSegs, Separator), AbsolutePath(cwdSegs), existing)
              == existing(AbsolutePath(cwdSegs) + [Separator] + Join(relSegs, Separator))
  {
    ResolveUnderCwd(cwdSegs, relSegs, true);
  }
}
