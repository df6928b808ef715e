/** The rule under the options both configuration factories ship
    (`allowSameFolder: true, allowedDepth: 2, rootDir: "app/src", prefix: "@"`),
    and the other concrete cases the rule's behaviour turns on.

    `cwd` is the list of names of the (normalised, absolute) working directory; each case
    holds for every such list that its `requires` admits (the cases about a file or library
    outside the root folder are stated for a working directory other than "/"). */
module ShippedConfig {
  import opened Strings
  import opened PosixPath
  import opened NoRelativeImportPaths

  /** The rule options in both configuration factories. */
  const Shipped := RawOptions(Some(2), Some(true), Some("app/src"), Some("@"))

  lemma {:induction false} CreateDefaults()
    ensures Create([Shipped]) == Options(Some(2), true, "app/src", "@")
    ensures Create([]) == Options(None, false, "", "")
    ensures Create([RawOptions(Some(0), Some(false), Some(""), None)]) == Options(Some(0), false, "", "")
  {
  }

  /** The names of `cwd/app/src`. */
  function AppSrc(cwd: seq<string>): seq<string> {
    cwd + ["app", "src"]
  }

  /** The names of `cwd/app/src/feature`. */
  function FeatureDir(cwd: seq<string>): seq<string> {
    AppSrc(cwd) + ["feature"]
  }

  /** Linting the file `cwd/app/src/feature/x.ts`. */
  function FeatureFile(cwd: seq<string>): FileContext {
    FileContext(Abs(cwd), Abs(FeatureDir(cwd) + ["x.ts"]))
  }

  function Import(path: string): ImportDeclaration {
    ImportDeclaration(Literal(path, Range(20, 22 + |path|)))
  }

  /** `more` below `names` starts with `names` as a string. */
  lemma {:induction false} BelowStartsWith(names: seq<string>, more: seq<string>)
    requires |names| > 0 && |more| > 0
    ensures StartsWith(Abs(names + more), Abs(names))
  {
    AbsAppend(names, more);
    var a, b := Abs(names), Abs(names + more);
    assert b[..|a|] == a;
  }

  /** The root folder "app/src" below any working directory. */
  lemma {:induction false} RootIsAppSrc(cwd: seq<string>)
    requires AllNames(cwd)
    ensures AllNames(AppSrc(cwd))
    ensures Join(Abs(cwd), "app/src") == Abs(AppSrc(cwd))
  {
    assert JoinWith(["src"], Sep) == "src";
    assert JoinWith(["app", "src"], Sep) == "app/src";
    SplitJoin(["app", "src"], Sep);
    JoinAbs(cwd, "app/src");
    WalkNames(cwd, ["app", "src"], false);
  }

  /** The root folder under the shipped options, and that `cwd/app/src/feature/x.ts` lies below it. */
  lemma {:induction false} RootFolder(cwd: seq<string>)
    requires AllNames(cwd)
    ensures AllNames(AppSrc(cwd)) && AllNames(FeatureDir(cwd))
    ensures |FeatureDir(cwd)| == |cwd| + 3
    ensures FeatureDir(cwd)[..|FeatureDir(cwd)| - 1] == AppSrc(cwd)
    ensures FeatureDir(cwd)[..|FeatureDir(cwd)| - 2] == cwd + ["app"]
    ensures RootPath(FeatureFile(cwd), "app/src") == Abs(AppSrc(cwd))
    ensures StartsWith(FeatureFile(cwd).filename, Abs(AppSrc(cwd)))
  {
    RootIsAppSrc(cwd);
    var root := AppSrc(cwd);
    assert FeatureDir(cwd) + ["x.ts"] == root + ["feature", "x.ts"];
    BelowStartsWith(root, ["feature", "x.ts"]);
    var dir := FeatureDir(cwd);
    assert dir[..|dir| - 1] == root;
    assert dir[..|dir| - 2] == root[..|root| - 1] == cwd + ["app"];
  }

  /** The import path that climbs `ups` folders and then descends through `parts`. */
  function Ascent(ups: nat, parts: seq<string>): string {
    RepeatString("../", ups) + JoinWith(parts, Sep)
  }

  /** `ups` ".." pieces and then `parts` joined by "/" spell `Ascent(ups, parts)`. */
  lemma {:induction false} AscentPieces(ups: nat, parts: seq<string>)
    requires |parts| > 0
    ensures JoinWith(Ups(ups) + parts, Sep) == Ascent(ups, parts)
    decreases ups
  {
    if ups > 0 {
      AscentPieces(ups - 1, parts);
      var rest := Ups(ups - 1) + parts;
      assert Ups(ups) + parts == [".."] + rest;
      JoinWithAppend([".."], rest, Sep);
      assert RepeatString("../", ups) == "../" + RepeatString("../", ups - 1);
    } else {
      assert Ups(0) + parts == parts;
    }
  }

  /** `Ascent(ups, parts)` splits into `ups` ".." pieces and then `parts`, and ends in a name. */
  lemma {:induction false} AscentSplit(ups: nat, parts: seq<string>)
    requires AllNames(parts) && |parts| > 0
    ensures Split(Ascent(ups, parts), Sep) == Ups(ups) + parts
    ensures Ascent(ups, parts) != "" && Ascent(ups, parts)[|Ascent(ups, parts)| - 1] != Sep
    ensures Depth(Ascent(ups, parts)) == ups
  {
    var path := Ascent(ups, parts);
    var j := JoinWith(parts, Sep);
    var steps := Ups(ups) + parts;
    NamesJoin(parts);
    AscentPieces(ups, parts);
    assert forall i :: 0 <= i < |steps| ==> Sep !in steps[i] by {
      forall i | 0 <= i < |steps| ensures Sep !in steps[i] {
        if i >= ups { assert steps[i] == parts[i - ups]; }
      }
    }
    SplitJoin(steps, Sep);
    assert path[|path| - 1] == j[|j| - 1];
    DepthOfAscent(ups, j);
  }

  /** Where `Ascent(ups, parts)` points from a file in `dir`, and its depth. */
  lemma {:induction false} ImportTarget(ctx: FileContext, dir: seq<string>, file: string, ups: nat, parts: seq<string>)
    requires AllNames(dir) && IsName(file) && AllNames(parts) && |parts| > 0 && ups <= |dir|
    requires ctx.filename == Abs(dir + [file])
    ensures TargetPath(Ascent(ups, parts), ctx) == Abs(dir[..|dir| - ups] + parts)
    ensures Depth(Ascent(ups, parts)) == ups
  {
    DirnameAbs(dir, file);
    AscentSplit(ups, parts);
    JoinUps(dir, Ascent(ups, parts), ups, parts);
  }

  // The rule's behaviour, for any working directory and any plain names

  /** The depth budget: with the root folder "app/src", the file `cwd/app/src/feature/x.ts`
      and an import that climbs one folder and descends through `parts` (depth 1) is a
      candidate; it is reported exactly when no budget, or a budget below 1, is configured. */
  lemma {:induction false} DepthBudget(cwd: seq<string>, o: Options, parts: seq<string>)
    requires AllNames(cwd) && AllNames(parts) && |parts| > 0 && o.rootDir == "app/src"
    ensures IsParentFolder(Ascent(1, parts), FeatureFile(cwd), "app/src")
    ensures OnImportDeclaration(FeatureFile(cwd), o, Import(Ascent(1, parts))) != [] <==>
              o.allowedDepth.None? || o.allowedDepth.value < 1
  {
    var ctx := FeatureFile(cwd);
    RootFolder(cwd);
    ImportTarget(ctx, FeatureDir(cwd), "x.ts", 1, parts);
    BelowStartsWith(AppSrc(cwd), parts);
    assert RepeatString("../", 1) == "../";
    AscentVerdict(ctx, o, Import(Ascent(1, parts)));
  }

  /** The depth budget for every depth-1 import from `cwd/app/src/feature/x.ts` whose target
      starts with the root's path, whatever its spelling ("../", "../a/", "../a/./b", ...):
      it is a candidate, reported exactly when no budget, or a budget below 1, is configured. */
  lemma {:induction false} DepthOneIntoRoot(cwd: seq<string>, o: Options, node: ImportDeclaration)
    requires AllNames(cwd) && o.rootDir == "app/src"
    requires StartsWith(node.source.value, "../") && Depth(node.source.value) == 1
    requires StartsWith(TargetPath(node.source.value, FeatureFile(cwd)), Abs(AppSrc(cwd)))
    ensures IsParentFolder(node.source.value, FeatureFile(cwd), "app/src")
    ensures OnImportDeclaration(FeatureFile(cwd), o, node) != [] <==>
              o.allowedDepth.None? || o.allowedDepth.value < 1
  {
    RootFolder(cwd);
    AscentVerdict(FeatureFile(cwd), o, node);
  }

  /** From `cwd/app/src/feature/x.ts`, the path from the root folder to the target of a
      depth-1 import into `cwd/app/src/<parts>` is `parts` joined by "/". */
  lemma {:induction false} ShippedRelative(cwd: seq<string>, parts: seq<string>)
    requires AllNames(cwd) && AllNames(parts) && |parts| > 0
    ensures Relative(RootPath(FeatureFile(cwd), "app/src"), TargetPath(Ascent(1, parts), FeatureFile(cwd))) ==
              JoinWith(parts, Sep)
  {
    var root := AppSrc(cwd);
    RootFolder(cwd);
    ImportTarget(FeatureFile(cwd), FeatureDir(cwd), "x.ts", 1, parts);
    assert root + [] == root;
    RelativeBetween(root, [], parts);
    AscentPieces(0, parts);
  }

  /** The replacement under the shipped root and prefix: a depth-1 import from
      `cwd/app/src/feature/x.ts` into `cwd/app/src/<parts>` becomes "@/<parts>". */
  lemma {:induction false} ShippedReplacement(cwd: seq<string>, parts: seq<string>)
    requires AllNames(cwd) && AllNames(parts) && |parts| > 0
    ensures GetAbsolutePath(Ascent(1, parts), FeatureFile(cwd), "app/src", "@") == "@" + [Sep] + JoinWith(parts, Sep)
  {
    ShippedRelative(cwd, parts);
    NamesJoin(parts);
    GetAbsolutePathShape(Ascent(1, parts), FeatureFile(cwd), "app/src", "@");
  }

  /** Under the shipped options (budget 2) such a depth-1 import is not reported. */
  lemma {:induction false} ShippedBudget(cwd: seq<string>, parts: seq<string>)
    requires AllNames(cwd) && AllNames(parts) && |parts| > 0
    ensures OnImportDeclaration(FeatureFile(cwd), Create([Shipped]), Import(Ascent(1, parts))) == []
  {
    CreateDefaults();
    RootFolder(cwd);
    ImportTarget(FeatureFile(cwd), FeatureDir(cwd), "x.ts", 1, parts);
    assert RepeatString("../", 1) == "../";
    AscentVerdict(FeatureFile(cwd), Create([Shipped]), Import(Ascent(1, parts)));
  }

  /** Under the shipped options no import of depth 2 or less is reported, from any file:
      same-folder imports are allowed, and an ascent stays within the budget of 2. */
  lemma {:induction false} ShippedShallowNeverReported(ctx: FileContext, node: ImportDeclaration)
    requires IsAbsolute(ctx.cwd) && IsAbsolute(ctx.filename)
    requires Depth(node.source.value) <= 2
    ensures OnImportDeclaration(ctx, Create([Shipped]), node) == []
  {
    CreateDefaults();
    var o := Create([Shipped]);
    if StartsWith(node.source.value, "./") {
      SameFolderVerdict(ctx, o, node);
    } else if StartsWith(node.source.value, "../") {
      AscentVerdict(ctx, o, node);
    } else {
      NonRelativeNeverReported(ctx, o, node);
    }
  }

  /** A folder whose name extends "src" starts, as a string, with the path of "src". */
  lemma {:induction false} SiblingPrefix(cwd: seq<string>, m: seq<string>)
    requires |m| > 0 && StartsWith(m[0], "src")
    ensures StartsWith(Abs(cwd + ["app"] + m), Abs(AppSrc(cwd)))
  {
    var up := cwd + ["app"];
    assert AppSrc(cwd) == up + ["src"];
    assert JoinWith(["src"], Sep) == "src";
    AbsAppend(up, ["src"]);
    AbsAppend(up, m);
    var j := JoinWith(m, Sep);
    assert StartsWith(j, "src") by {
      JoinWithHead(m, Sep);
      assert j[..|m[0]|] == m[0];
      assert j[..3] == m[0][..3];
    }
    assert (Abs(up) + [Sep] + j)[..|Abs(up)| + 4] == Abs(up) + [Sep] + "src";
  }

  /** "Inside the root" is a string-prefix test: from `cwd/app/src/feature/x.ts`, an import
      climbing two folders into a sibling `cwd/app/<m>` whose first name extends "src"
      (such as "src2") is a candidate. */
  lemma {:induction false} SiblingCountsAsInside(cwd: seq<string>, m: seq<string>)
    requires AllNames(cwd) && AllNames(m) && |m| > 0 && StartsWith(m[0], "src")
    ensures IsParentFolder(Ascent(2, m), FeatureFile(cwd), "app/src")
    ensures Depth(Ascent(2, m)) == 2
  {
    RootFolder(cwd);
    ImportTarget(FeatureFile(cwd), FeatureDir(cwd), "x.ts", 2, m);
    SiblingPrefix(cwd, m);
    assert StartsWith(TargetPath(Ascent(2, m), FeatureFile(cwd)), RootPath(FeatureFile(cwd), "app/src"));
    assert RepeatString("../", 2) == "../../";
  }

  /** The replacement of such a sibling import climbs out of the root behind the prefix. */
  lemma {:induction false} SiblingReplacement(cwd: seq<string>, m: seq<string>)
    requires AllNames(cwd) && AllNames(m) && |m| > 0 && m[0] != "src"
    ensures GetAbsolutePath(Ascent(2, m), FeatureFile(cwd), "app/src", "@") == "@" + [Sep] + Ascent(1, m)
  {
    var up := cwd + ["app"];
    RootFolder(cwd);
    ImportTarget(FeatureFile(cwd), FeatureDir(cwd), "x.ts", 2, m);
    assert AppSrc(cwd) == up + ["src"];
    RelativeBetween(up, ["src"], m);
    AscentPieces(1, m);
    GetAbsolutePathShape(Ascent(2, m), FeatureFile(cwd), "app/src", "@");
  }

  /** Such a sibling import is reported exactly when the budget is below its depth of 2. */
  lemma {:induction false} SiblingVerdict(cwd: seq<string>, o: Options, m: seq<string>)
    requires AllNames(cwd) && AllNames(m) && |m| > 0 && StartsWith(m[0], "src")
    requires o.rootDir == "app/src"
    ensures OnImportDeclaration(FeatureFile(cwd), o, Import(Ascent(2, m))) != [] <==>
              o.allowedDepth.None? || o.allowedDepth.value < 2
  {
    SiblingCountsAsInside(cwd, m);
    AscentVerdict(FeatureFile(cwd), o, Import(Ascent(2, m)));
  }

  /** The file `cwd/lib/x.ts`, outside the root folder. */
  function LibFile(cwd: seq<string>): FileContext {
    FileContext(Abs(cwd), Abs(cwd + ["lib"] + ["x.ts"]))
  }

  /** `cwd/lib/x.ts` does not start with the root folder `cwd/app/src`. */
  lemma {:induction false} LibOutsideRoot(cwd: seq<string>)
    requires AllNames(cwd) && cwd != []
    ensures RootPath(LibFile(cwd), "app/src") == Abs(AppSrc(cwd))
    ensures !StartsWith(LibFile(cwd).filename, Abs(AppSrc(cwd)))
  {
    RootIsAppSrc(cwd);
    assert JoinWith(["src"], Sep) == "src";
    assert JoinWith(["app", "src"], Sep) == "app/src";
    assert JoinWith(["x.ts"], Sep) == "x.ts";
    assert JoinWith(["lib", "x.ts"], Sep) == "lib/x.ts";
    AbsAppend(cwd, ["app", "src"]);
    assert cwd + ["lib"] + ["x.ts"] == cwd + ["lib", "x.ts"];
    AbsAppend(cwd, ["lib", "x.ts"]);
    var n := |Abs(cwd)| + 1;
    assert Abs(AppSrc(cwd))[n] == 'a' && LibFile(cwd).filename[n] == 'l';
  }

  /** From `cwd/lib/x.ts`, climbing one folder and descending through `below` reaches `cwd/<below>`. */
  lemma {:induction false} LibImport(cwd: seq<string>, below: seq<string>)
    requires AllNames(cwd) && AllNames(below) && |below| > 0
    ensures TargetPath(Ascent(1, below), LibFile(cwd)) == Abs(cwd + below)
    ensures StartsWith(Ascent(1, below), "../")
  {
    var lib := cwd + ["lib"];
    assert AllNames(lib) by {
      forall i | 0 <= i < |lib| ensures IsName(lib[i]) {
        if i < |cwd| { assert lib[i] == cwd[i]; }
      }
    }
    assert lib[..|lib| - 1] == cwd;
    ImportTarget(LibFile(cwd), lib, "x.ts", 1, below);
    assert RepeatString("../", 1) == "../";
  }

  /** From `cwd/lib/x.ts`, "../app/src/<parts>" points into the root folder. */
  lemma {:induction false} LibImportTarget(cwd: seq<string>, parts: seq<string>)
    requires AllNames(cwd) && AllNames(parts) && |parts| > 0
    ensures StartsWith(TargetPath(Ascent(1, ["app", "src"] + parts), LibFile(cwd)), Abs(AppSrc(cwd)))
    ensures StartsWith(Ascent(1, ["app", "src"] + parts), "../")
  {
    var below := ["app", "src"] + parts;
    assert AllNames(below) by {
      forall i | 0 <= i < |below| ensures IsName(below[i]) {
        if i >= 2 { assert below[i] == parts[i - 2]; }
      }
    }
    assert cwd + below == AppSrc(cwd) + parts;
    LibImport(cwd, below);
    BelowStartsWith(AppSrc(cwd), parts);
  }

  /** An ascent from a file outside the root folder is not a candidate even when its target
      lies inside the root: `cwd/lib/x.ts` importing "../app/src/<parts>". */
  lemma {:induction false} FileOutsideRoot(cwd: seq<string>, o: Options, parts: seq<string>)
    requires AllNames(cwd) && cwd != [] && AllNames(parts) && |parts| > 0 && o.rootDir == "app/src"
    ensures StartsWith(TargetPath(Ascent(1, ["app", "src"] + parts), LibFile(cwd)), RootPath(LibFile(cwd), "app/src"))
    ensures OnImportDeclaration(LibFile(cwd), o, Import(Ascent(1, ["app", "src"] + parts))) == []
  {
    LibOutsideRoot(cwd);
    LibImportTarget(cwd, parts);
    EscapingAscentNotReported(LibFile(cwd), o, Import(Ascent(1, ["app", "src"] + parts)));
  }

  /** Without a root folder the depth budget still applies: with a budget of 5, "../a" is
      not reported, whatever the file and working directory. */
  lemma {:induction false} EmptyRootKeepsDepthBudget(ctx: FileContext)
    requires IsAbsolute(ctx.cwd) && IsAbsolute(ctx.filename)
    ensures OnImportDeclaration(ctx, Options(Some(5), false, "", ""), Import("../a")) == []
  {
    assert "../a"[3..] == "a";
    AscentVerdict(ctx, Options(Some(5), false, "", ""), Import("../a"));
  }

  /** Without a prefix the fix is not always accepted on the next run. Here the working
      directory is `parent/c` and the file `a.ts` sits directly in it; with no root folder,
      importing the folder `x` next to the working directory as "../x" climbs out of the
      working directory, is reported, and its fix rewrites it to "../x" again. */
  lemma {:induction false} UnprefixedFixRepeats(parent: seq<string>, c: string, x: string)
    requires AllNames(parent) && IsName(c) && IsName(x) && c != x
    ensures var ctx := FileContext(Abs(parent + [c]), Abs(parent + [c] + ["a.ts"]));
            var reports := OnImportDeclaration(ctx, Options(None, false, "", ""), Import(Ascent(1, [x])));
            |reports| == 1 && reports[0].fix.text == Ascent(1, [x]) &&
            OnImportDeclaration(ctx, Options(None, false, "", ""), Import(reports[0].fix.text)) != []
  {
    var here := parent + [c];
    var ctx := FileContext(Abs(here), Abs(here + ["a.ts"]));
    var o := Options(None, false, "", "");
    assert AllNames(here) by {
      forall i | 0 <= i < |here| ensures IsName(here[i]) {
        if i < |parent| { assert here[i] == parent[i]; }
      }
    }
    NormalizeAbs(here);
    assert RootPath(ctx, "") == Abs(here);
    assert here[..|here| - 1] == parent;
    ImportTarget(ctx, here, "a.ts", 1, [x]);
    RelativeBetween(parent, [c], [x]);
    AscentPieces(1, [x]);
    GetAbsolutePathShape(Ascent(1, [x]), ctx, "", "");
    assert RepeatString("../", 1) == "../";
    AscentVerdict(ctx, o, Import(Ascent(1, [x])));
  }

  // The concrete cases, written out

  /** "../shared" from `cwd/app/src/feature/x.ts`: a budget of 1 exempts it, a budget of 0
      or none reports it. */
  lemma {:induction false} DepthBudgetExample(cwd: seq<string>, o: Options)
    requires AllNames(cwd) && o.rootDir == "app/src"
    ensures o.allowedDepth == Some(1) ==> OnImportDeclaration(FeatureFile(cwd), o, Import("../shared")) == []
    ensures o.allowedDepth == Some(0) ==> OnImportDeclaration(FeatureFile(cwd), o, Import("../shared")) != []
    ensures o.allowedDepth == None ==> OnImportDeclaration(FeatureFile(cwd), o, Import("../shared")) != []
  {
    assert JoinWith(["shared"], Sep) == "shared";
    assert RepeatString("../", 1) == "../";
    assert Ascent(1, ["shared"]) == "../shared";
    DepthBudget(cwd, o, ["shared"]);
  }

  /** "../shared/util" from `cwd/app/src/feature/x.ts` becomes "@/shared/util", and under
      the shipped options it is not reported. */
  lemma {:induction false} ShippedReplacementExample(cwd: seq<string>)
    requires AllNames(cwd)
    ensures GetAbsolutePath("../shared/util", FeatureFile(cwd), "app/src", "@") == "@/shared/util"
    ensures OnImportDeclaration(FeatureFile(cwd), Create([Shipped]), Import("../shared/util")) == []
  {
    assert JoinWith(["util"], Sep) == "util";
    assert JoinWith(["shared", "util"], Sep) == "shared/util";
    assert RepeatString("../", 1) == "../";
    assert Ascent(1, ["shared", "util"]) == "../shared/util";
    assert "@" + [Sep] + "shared/util" == "@/shared/util";
    ShippedReplacement(cwd, ["shared", "util"]);
    ShippedBudget(cwd, ["shared", "util"]);
  }

  /** "../../src2/y" from `cwd/app/src/feature/x.ts` reaches `cwd/app/src2/y`: a candidate,
      rewritten to "@/../src2/y". */
  lemma {:induction false} SiblingExample(cwd: seq<string>)
    requires AllNames(cwd)
    ensures IsParentFolder("../../src2/y", FeatureFile(cwd), "app/src")
    ensures GetAbsolutePath("../../src2/y", FeatureFile(cwd), "app/src", "@") == "@/../src2/y"
  {
    assert JoinWith(["y"], Sep) == "y";
    assert JoinWith(["src2", "y"], Sep) == "src2/y";
    assert RepeatString("../", 1) == "../";
    assert RepeatString("../", 2) == "../../";
    assert Ascent(2, ["src2", "y"]) == "../../src2/y";
    assert "@" + [Sep] + Ascent(1, ["src2", "y"]) == "@/../src2/y";
    assert StartsWith("src2", "src");
    SiblingCountsAsInside(cwd, ["src2", "y"]);
    SiblingReplacement(cwd, ["src2", "y"]);
  }
}
