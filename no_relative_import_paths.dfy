/** The ESLint rule `no-relative-import-paths`: for every import declaration it decides
    whether the imported path is a relative path that should be written with the
    project's alias instead, and reports it together with a fix that rewrites the
    string literal.

    The host's `context.report` callback is replaced by the list of reports one
    import declaration produces. */
module NoRelativeImportPaths {
  import opened Strings
  import opened PosixPath

  datatype Option<T> = None | Some(value: T)

  const Message := "import statements should have an absolute path"

  /** `context.options[0]` as configured: every property may be absent. */
  datatype RawOptions = RawOptions(
    allowedDepth: Option<int>,
    allowSameFolder: Option<bool>,
    rootDir: Option<string>,
    prefix: Option<string>)

  /** The options once `create` has applied its defaults. */
  datatype Options = Options(allowedDepth: Option<int>, allowSameFolder: bool, rootDir: string, prefix: string)

  /** What the rule reads from ESLint's rule context besides the options. */
  datatype FileContext = FileContext(cwd: string, filename: string)

  /** Source offsets; the range of a string literal includes its quotes. */
  datatype Range = Range(start: int, end: int)

  /** `node.source` of an import declaration. */
  datatype Literal = Literal(value: string, range: Range)

  datatype ImportDeclaration = ImportDeclaration(source: Literal)

  /** `fixer.replaceTextRange(range, text)`. */
  datatype Fix = Fix(range: Range, text: string)

  datatype Report = Report(node: ImportDeclaration, message: string, fix: Fix)

  function FirstOptions(options: seq<RawOptions>): RawOptions {
    if |options| == 0 then RawOptions(None, None, None, None) else options[0]
  }

  /** `value || false` for an optional boolean. */
  function OrFalse(value: Option<bool>): bool {
    value.Some? && value.value
  }

  /** `value || ""` for an optional string. */
  function OrEmpty(value: Option<string>): string {
    if value.Some? && value.value != "" then value.value else ""
  }

  /** The defaulting in `create`: `allowedDepth` is taken as it is, without a default,
      so an explicit 0 stays distinct from an absent value; the other three fall back
      to `false` and `""`. */
  function Create(options: seq<RawOptions>): (o: Options)
    ensures o.allowedDepth == (if |options| == 0 then None else options[0].allowedDepth)
    ensures o.allowSameFolder <==> |options| > 0 && options[0].allowSameFolder == Some(true)
    ensures o.rootDir == (if |options| > 0 && options[0].rootDir.Some? then options[0].rootDir.value else "")
    ensures o.prefix == (if |options| > 0 && options[0].prefix.Some? then options[0].prefix.value else "")
  {
    var first := FirstOptions(options);
    Options(first.allowedDepth, OrFalse(first.allowSameFolder), OrEmpty(first.rootDir), OrEmpty(first.prefix))
  }

  /** The absolute root folder: `path.join(cwd, rootDir)`. */
  function RootPath(ctx: FileContext, rootDir: string): (r: string)
    ensures IsAbsolute(ctx.cwd) ==> IsAbsolute(r)
  {
    Join(ctx.cwd, rootDir)
  }

  /** Where the imported path points: `path.join(path.dirname(filename), importPath)`. */
  function TargetPath(importPath: string, ctx: FileContext): (r: string)
    ensures IsAbsolute(ctx.filename) ==> IsAbsolute(r)
  {
    Join(Dirname(ctx.filename), importPath)
  }

  /** `isParentFolder`: an ascending import ("../") that is a report candidate. With a root
      folder configured, both the target and the linted file must start with the root's
      absolute path as plain strings; without one every ascending import qualifies. */
  predicate IsParentFolder(importPath: string, ctx: FileContext, rootDir: string): (r: bool)
    ensures r ==> |importPath| >= 3 && importPath[..3] == "../"
    ensures rootDir == "" ==> (r <==> |importPath| >= 3 && importPath[..3] == "../")
    ensures rootDir != "" && r ==>
              StartsWith(TargetPath(importPath, ctx), RootPath(ctx, rootDir)) &&
              StartsWith(ctx.filename, RootPath(ctx, rootDir))
  {
    var root := RootPath(ctx, rootDir);
    StartsWith(importPath, "../") &&
    (rootDir == "" || (StartsWith(TargetPath(importPath, ctx), root) && StartsWith(ctx.filename, root)))
  }

  /** `isSameFolder`. */
  predicate IsSameFolder(importPath: string): (r: bool)
    ensures r <==> |importPath| >= 2 && importPath[0] == '.' && importPath[1] == '/'
  {
    StartsWith(importPath, "./")
  }

  /** `n` copies of `s`, concatenated. */
  function RepeatString(s: string, n: nat): (r: string)
    ensures |r| == n * |s|
  {
    if n == 0 then "" else s + RepeatString(s, n - 1)
  }

  /** The number of leading "../" groups of `p`. */
  function Depth(p: string): (d: nat)
    ensures 3 * d <= |p|
    decreases |p|
  {
    if StartsWith(p, "../") then 1 + Depth(p[3..]) else 0
  }

  /** `getRelativePathDepth`: strips "../" from the front as long as it can. */
  method RelativePathDepth(p: string) returns (depth: nat)
    ensures depth == Depth(p)
  {
    depth := 0;
    var rest := p;
    while StartsWith(rest, "../")
      invariant 3 * depth <= |p| && rest == p[3 * depth..]
      invariant depth + Depth(rest) == Depth(p)
      decreases |rest|
    {
      depth := depth + 1;
      rest := rest[3..];
    }
  }

  /** `getAbsolutePath`: the target's path relative to the root folder, split at "/",
      behind the prefix, with empty pieces dropped and the rest joined by "/". */
  function GetAbsolutePath(importPath: string, ctx: FileContext, rootDir: string, prefix: string): (r: string)
    requires IsAbsolute(ctx.cwd) && IsAbsolute(ctx.filename)
    ensures NoEmptySegment(prefix, Sep) ==> NoEmptySegment(r, Sep)
  {
    var rel := Relative(RootPath(ctx, rootDir), TargetPath(importPath, ctx));
    var pieces := NonEmpty([prefix] + Split(rel, Sep));
    assert NoEmptySegment(prefix, Sep) ==> NoEmptySegment(JoinWith(pieces, Sep), Sep) by {
      if NoEmptySegment(prefix, Sep) {
        forall i | 0 <= i < |pieces| ensures pieces[i] != "" && NoEmptySegment(pieces[i], Sep) {
          assert pieces[i] in [prefix] + Split(rel, Sep);
          if pieces[i] != prefix {
            assert pieces[i] in Split(rel, Sep);
            NoSepHasNoEmptySegment(pieces[i], Sep);
          }
        }
        JoinWithNoEmptySegment(pieces, Sep);
      }
    }
    JoinWith(pieces, Sep)
  }

  /** The `ImportDeclaration` handler: the reports `context.report` receives for `node`. */
  function OnImportDeclaration(ctx: FileContext, o: Options, node: ImportDeclaration): (reports: seq<Report>)
    requires IsAbsolute(ctx.cwd) && IsAbsolute(ctx.filename)
    ensures |reports| <= 1
  {
    var path := node.source.value;
    var report := Report(node, Message,
      Fix(Range(node.source.range.start + 1, node.source.range.end - 1),
          GetAbsolutePath(path, ctx, o.rootDir, o.prefix)));
    var ascending :=
      if IsParentFolder(path, ctx, o.rootDir) && (o.allowedDepth.None? || Depth(path) > o.allowedDepth.value)
      then [report] else [];
    var sameFolder := if IsSameFolder(path) && !o.allowSameFolder then [report] else [];
    assert ascending == [] || sameFolder == [] by { PrefixesExclusive(path); }
    ascending + sameFolder
  }

  /** No path starts with both "./" and "../". */
  lemma {:induction false} PrefixesExclusive(p: string)
    ensures !(StartsWith(p, "./") && StartsWith(p, "../"))
  {
    if |p| >= 3 {
      assert p[..2][1] == p[1] == p[..3][1];
    }
  }

  // Properties of the depth count

  /** `p` starts with `Depth(p)` copies of "../", and what follows them does not start with
      another one. */
  lemma {:induction false} DepthShape(p: string)
    ensures p[..3 * Depth(p)] == RepeatString("../", Depth(p))
    ensures !StartsWith(p[3 * Depth(p)..], "../")
    decreases |p|
  {
    if StartsWith(p, "../") {
      var q := p[3..];
      DepthShape(q);
      var d := Depth(q);
      assert p[..3 * (d + 1)] == p[..3] + q[..3 * d];
      assert p[3 * (d + 1)..] == q[3 * d..];
    }
  }

  /** `Depth` is the largest number of leading "../" groups. */
  lemma {:induction false} DepthIsMaximal(p: string, k: nat)
    requires StartsWith(p, RepeatString("../", k))
    ensures k <= Depth(p)
    decreases k
  {
    if k > 0 {
      var r := RepeatString("../", k);
      assert r[..3] == "../";
      assert p[..3] == r[..3];
      assert StartsWith(p, "../");
      assert p[3..][..3 * (k - 1)] == r[3..];
      DepthIsMaximal(p[3..], k - 1);
    }
  }

  /** One more leading "../" is one more level of depth. */
  lemma {:induction false} DepthStep(q: string)
    ensures Depth("../" + q) == 1 + Depth(q)
  {
    var p := "../" + q;
    assert p[..3] == "../";
    assert p[3..] == q;
  }

  /** `k` leading "../" groups in front of a path that does not itself ascend give depth `k`. */
  lemma {:induction false} DepthOfAscent(k: nat, rest: string)
    requires !StartsWith(rest, "../")
    ensures Depth(RepeatString("../", k) + rest) == k
    decreases k
  {
    if k > 0 {
      var r := RepeatString("../", k - 1);
      assert RepeatString("../", k) == "../" + r;
      assert ("../" + r) + rest == "../" + (r + rest);
      DepthStep(r + rest);
      DepthOfAscent(k - 1, rest);
    }
  }

  lemma {:induction false} DepthExamples()
    ensures Depth("../../../x") == 3
    ensures Depth("x") == 0 && Depth("./x") == 0 && Depth("..x") == 0
  {
    assert "../../../x"[3..] == "../../x";
    assert "../../x"[3..] == "../x";
    assert "../x"[3..] == "x";
    assert "./x"[..3][1] != "../"[1];
    assert "..x"[..3][2] != "../"[2];
  }

  // Properties of the report decision

  /** A path that starts with neither "./" nor "../" (a package or alias specifier) is never reported. */
  lemma {:induction false} NonRelativeNeverReported(ctx: FileContext, o: Options, node: ImportDeclaration)
    requires IsAbsolute(ctx.cwd) && IsAbsolute(ctx.filename)
    requires !StartsWith(node.source.value, "./") && !StartsWith(node.source.value, "../")
    ensures OnImportDeclaration(ctx, o, node) == []
  {
  }

  /** A same-folder import is reported exactly when same-folder imports are not allowed. */
  lemma {:induction false} SameFolderVerdict(ctx: FileContext, o: Options, node: ImportDeclaration)
    requires IsAbsolute(ctx.cwd) && IsAbsolute(ctx.filename)
    requires StartsWith(node.source.value, "./")
    ensures OnImportDeclaration(ctx, o, node) != [] <==> !o.allowSameFolder
  {
    PrefixesExclusive(node.source.value);
  }

  /** An ascending import is reported exactly when it is a candidate and either no depth
      budget is configured or its depth exceeds the budget. */
  lemma {:induction false} AscentVerdict(ctx: FileContext, o: Options, node: ImportDeclaration)
    requires IsAbsolute(ctx.cwd) && IsAbsolute(ctx.filename)
    requires StartsWith(node.source.value, "../")
    ensures OnImportDeclaration(ctx, o, node) != [] <==>
              IsParentFolder(node.source.value, ctx, o.rootDir) &&
              (o.allowedDepth.None? || Depth(node.source.value) > o.allowedDepth.value)
  {
    PrefixesExclusive(node.source.value);
  }

  /** Without a root folder the verdict on an ascending import depends only on its depth,
      not on the file or the working directory; the depth budget still applies. */
  lemma {:induction false} AscentWithoutRoot(ctx: FileContext, ctx': FileContext, o: Options, node: ImportDeclaration)
    requires IsAbsolute(ctx.cwd) && IsAbsolute(ctx.filename)
    requires IsAbsolute(ctx'.cwd) && IsAbsolute(ctx'.filename)
    requires StartsWith(node.source.value, "../") && o.rootDir == ""
    ensures OnImportDeclaration(ctx, o, node) != [] <==>
              o.allowedDepth.None? || Depth(node.source.value) > o.allowedDepth.value
    ensures (OnImportDeclaration(ctx, o, node) != []) == (OnImportDeclaration(ctx', o, node) != [])
  {
    AscentVerdict(ctx, o, node);
    AscentVerdict(ctx', o, node);
  }

  /** With a root folder, an ascent whose target or whose file does not start with the
      root's absolute path is never reported, whatever the depth budget. */
  lemma {:induction false} EscapingAscentNotReported(ctx: FileContext, o: Options, node: ImportDeclaration)
    requires IsAbsolute(ctx.cwd) && IsAbsolute(ctx.filename)
    requires StartsWith(node.source.value, "../") && o.rootDir != ""
    requires !StartsWith(TargetPath(node.source.value, ctx), RootPath(ctx, o.rootDir)) ||
             !StartsWith(ctx.filename, RootPath(ctx, o.rootDir))
    ensures OnImportDeclaration(ctx, o, node) == []
  {
    AscentVerdict(ctx, o, node);
  }

  /** Every report carries the fixed message and a fix that replaces the literal without
      its quotes by the computed path. */
  lemma {:induction false} ReportShape(ctx: FileContext, o: Options, node: ImportDeclaration)
    requires IsAbsolute(ctx.cwd) && IsAbsolute(ctx.filename)
    ensures forall r :: r in OnImportDeclaration(ctx, o, node) ==>
              r.node == node && r.message == Message &&
              r.fix.range == Range(node.source.range.start + 1, node.source.range.end - 1) &&
              r.fix.text == GetAbsolutePath(node.source.value, ctx, o.rootDir, o.prefix)
  {
  }

  // Properties of the computed replacement

  /** The replacement is the relative path from the root to the target behind the prefix. */
  lemma {:induction false} GetAbsolutePathShape(importPath: string, ctx: FileContext, rootDir: string, prefix: string)
    requires IsAbsolute(ctx.cwd) && IsAbsolute(ctx.filename)
    ensures var rel := Relative(RootPath(ctx, rootDir), TargetPath(importPath, ctx));
            GetAbsolutePath(importPath, ctx, rootDir, prefix) ==
              if prefix == "" then rel
              else if rel == "" then prefix
              else prefix + [Sep] + rel
  {
    var rel := Relative(RootPath(ctx, rootDir), TargetPath(importPath, ctx));
    var s := Split(rel, Sep);
    assert ([prefix] + s)[0] == prefix && ([prefix] + s)[1..] == s;
    if rel == "" {
      assert s == [""];
      assert NonEmpty(s) == [];
    } else {
      assert NonEmpty(s) == s;
      JoinSplit(rel, Sep);
      if prefix != "" {
        JoinWithAppend([prefix], s, Sep);
      }
    }
  }

  /** The replacement names the import's target: without a prefix, resolving it from the
      root folder reaches the target; with a prefix, so does what follows the prefix (the
      prefix alone stands for the root folder itself). */
  lemma {:induction false} ReplacementResolvesToTarget(importPath: string, ctx: FileContext, rootDir: string, prefix: string)
    requires IsAbsolute(ctx.cwd) && IsAbsolute(ctx.filename)
    ensures var r := GetAbsolutePath(importPath, ctx, rootDir, prefix);
            var root, target := RootPath(ctx, rootDir), TargetPath(importPath, ctx);
            && (prefix == "" ==> Segments(root + [Sep] + r) == Segments(target))
            && (prefix != "" ==> r == prefix || StartsWith(r, prefix + [Sep]))
            && (prefix != "" && r == prefix ==> Segments(root) == Segments(target))
            && (prefix != "" && r != prefix ==>
                  Segments(root + [Sep] + r[|prefix| + 1..]) == Segments(target))
  {
    var root, target := RootPath(ctx, rootDir), TargetPath(importPath, ctx);
    var rel := Relative(root, target);
    GetAbsolutePathShape(importPath, ctx, rootDir, prefix);
    RelativeRoundTrip(root, target);
    if prefix != "" && rel != "" {
      var r := prefix + [Sep] + rel;
      assert r[..|prefix| + 1] == prefix + [Sep];
      assert r[|prefix| + 1..] == rel;
    }
  }

  /** A replacement behind the prefix never starts with "./" or "../" when the prefix
      itself followed by "/" does not. */
  lemma {:induction false} PrefixedIsNotRelative(prefix: string, r: string)
    requires prefix != ""
    requires !StartsWith(prefix + [Sep], "./") && !StartsWith(prefix + [Sep], "../")
    requires r == prefix || StartsWith(r, prefix + [Sep])
    ensures !StartsWith(r, "./") && !StartsWith(r, "../")
  {
    var q := prefix + [Sep];
    if r == prefix {
      if |r| >= 2 { assert q[..2] == r[..2]; }
      if |r| >= 3 { assert q[..3] == r[..3]; }
    } else {
      assert r[..|q|] == q;
      assert r[0] == q[0] && r[1] == q[1];
      if |q| >= 3 { assert q[..3] == r[..3]; }
    }
  }

  /** Applying a fix yields an import the rule accepts, provided the prefix is non-empty
      and is not itself a relative path. */
  lemma {:induction false} FixIsAccepted(ctx: FileContext, o: Options, node: ImportDeclaration, range: Range)
    requires IsAbsolute(ctx.cwd) && IsAbsolute(ctx.filename)
    requires o.prefix != ""
    requires !StartsWith(o.prefix + [Sep], "./") && !StartsWith(o.prefix + [Sep], "../")
    ensures forall r :: r in OnImportDeclaration(ctx, o, node) ==>
              OnImportDeclaration(ctx, o, ImportDeclaration(Literal(r.fix.text, range))) == []
  {
    forall r | r in OnImportDeclaration(ctx, o, node)
      ensures OnImportDeclaration(ctx, o, ImportDeclaration(Literal(r.fix.text, range))) == []
    {
      var text := GetAbsolutePath(node.source.value, ctx, o.rootDir, o.prefix);
      assert r.fix.text == text;
      ReplacementResolvesToTarget(node.source.value, ctx, o.rootDir, o.prefix);
      PrefixedIsNotRelative(o.prefix, text);
      NonRelativeNeverReported(ctx, o, ImportDeclaration(Literal(text, range)));
    }
  }
}
