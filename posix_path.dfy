/** The part of Node's POSIX `path` module the rule calls: `normalize` (through
    `join`), `join`, `dirname` and `relative`, with `sep` fixed to "/".

    A path string is read as its `split("/")` pieces. Normalisation walks those
    pieces with a stack: empty pieces and "." are skipped, ".." pops the last
    name (or, in a relative path with nothing to pop, is kept), every other
    piece is pushed. A normalised absolute path is therefore "/" followed by
    plain names joined with "/"; `Abs` renders such a list of names. */
module PosixPath {
  import opened Strings

  const Sep: char := '/'

  predicate IsAbsolute(s: string) {
    |s| > 0 && s[0] == Sep
  }

  /** A plain file or directory name: what a normalised absolute path consists of. */
  predicate IsName(seg: string) {
    seg != "" && seg != "." && seg != ".." && Sep !in seg
  }

  predicate AllNames(segs: seq<string>) {
    forall i :: 0 <= i < |segs| ==> IsName(segs[i])
  }

  /** Non-empty pieces without separators: what normalisation leaves of any path. */
  predicate AllPieces(segs: seq<string>) {
    forall i :: 0 <= i < |segs| ==> segs[i] != "" && Sep !in segs[i]
  }

  /** The absolute path made of `names`; the root "/" when there are none. */
  function Abs(names: seq<string>): string {
    [Sep] + JoinWith(names, Sep)
  }

  /** One piece of normalisation applied to the stack of names seen so far. */
  function Push(stack: seq<string>, seg: string, allowAboveRoot: bool): seq<string> {
    if seg == "" || seg == "." then stack
    else if seg == ".." then
      if |stack| > 0 && stack[|stack| - 1] != ".." then stack[..|stack| - 1]
      else if allowAboveRoot then stack + [".."]
      else stack
    else stack + [seg]
  }

  /** Normalisation of the pieces `segs`, starting from `stack`. For an absolute path
      (`allowAboveRoot` false) only plain names remain. */
  function Walk(stack: seq<string>, segs: seq<string>, allowAboveRoot: bool): (r: seq<string>)
    ensures (forall i :: 0 <= i < |segs| ==> Sep !in segs[i]) ==>
              (AllPieces(stack) ==> AllPieces(r)) &&
              (AllNames(stack) && !allowAboveRoot ==> AllNames(r))
    decreases |segs|
  {
    if segs == [] then stack
    else Walk(Push(stack, segs[0], allowAboveRoot), segs[1..], allowAboveRoot)
  }

  /** Node's `path.posix.normalize`: keeps a leading "/" and a trailing "/". */
  function Normalize(s: string): (r: string)
    ensures r != ""
    ensures IsAbsolute(s) <==> IsAbsolute(r)
  {
    if s == "" then "."
    else
      var absolute := s[0] == Sep;
      var trailing := s[|s| - 1] == Sep;
      var segs := Walk([], Split(s, Sep), !absolute);
      if segs == [] then
        (if absolute then "/" else if trailing then "./" else ".")
      else
        var body := JoinWith(segs, Sep);
        assert body != "" && body[0] != Sep by {
          assert segs[0] != "" && Sep !in segs[0];
          assert segs[0][0] in segs[0];
          JoinWithHead(segs, Sep);
          if |segs| > 1 { assert body[0] == (segs[0] + [Sep])[0]; }
        }
        (if absolute then [Sep] else "") + body + (if trailing then [Sep] else "")
  }

  /** Node's `path.posix.join(a, b)`: empty arguments are ignored, the rest joined by "/"
      and normalised. */
  function Join(a: string, b: string): (r: string)
    ensures IsAbsolute(a) ==> IsAbsolute(r)
  {
    if a == "" && b == "" then "."
    else if a == "" then Normalize(b)
    else if b == "" then Normalize(a)
    else Normalize(a + [Sep] + b)
  }

  /** `s` without its trailing separators; the first character is never removed. */
  function TrimTrailingSeps(s: string): (r: string)
    ensures |r| <= |s| && r == s[..|r|]
    ensures |s| > 0 ==> |r| > 0
    ensures |r| > 1 ==> r[|r| - 1] != Sep
    ensures forall i :: |r| <= i < |s| ==> s[i] == Sep
  {
    if |s| > 1 && s[|s| - 1] == Sep then TrimTrailingSeps(s[..|s| - 1]) else s
  }

  /** `s` without its last name; the first character is never removed. */
  function TrimLastName(s: string): (r: string)
    ensures |r| <= |s| && r == s[..|r|]
    ensures |s| > 0 ==> |r| > 0
    ensures |r| > 1 ==> r[|r| - 1] == Sep
    ensures forall i :: |r| <= i < |s| ==> s[i] != Sep
  {
    if |s| > 1 && s[|s| - 1] != Sep then TrimLastName(s[..|s| - 1]) else s
  }

  /** Node's `path.posix.dirname`: everything before the separator that precedes the
      last name; "/" or "." when there is none. */
  function Dirname(s: string): (r: string)
    ensures IsAbsolute(s) ==> IsAbsolute(r)
  {
    if s == "" then "."
    else
      var u := TrimLastName(TrimTrailingSeps(s));
      if |u| <= 1 then (if s[0] == Sep then "/" else ".")
      else if s[0] == Sep && |u| - 1 == 1 then "//"
      else s[..|u| - 1]
  }

  /** The names of an absolute path once normalised (Node's `path.resolve` of it). */
  function Segments(s: string): (r: seq<string>)
    requires IsAbsolute(s)
    ensures AllNames(r)
  {
    Walk([], Split(s, Sep), false)
  }

  /** Length of the longest common prefix of `a` and `b`. */
  function CommonPrefixLength(a: seq<string>, b: seq<string>): (k: nat)
    ensures k <= |a| && k <= |b|
    ensures a[..k] == b[..k]
    ensures k < |a| && k < |b| ==> a[k] != b[k]
  {
    if a == [] || b == [] || a[0] != b[0] then 0
    else 1 + CommonPrefixLength(a[1..], b[1..])
  }

  /** `n` copies of "..". */
  function Ups(n: nat): (r: seq<string>)
    ensures |r| == n
    ensures forall i :: 0 <= i < n ==> r[i] == ".."
  {
    if n == 0 then [] else [".."] + Ups(n - 1)
  }

  /** The pieces of `relative` between two lists of names: one ".." for every name of
      `f` below their common prefix, then the rest of `t`. */
  function Steps(f: seq<string>, t: seq<string>): (r: seq<string>)
    requires AllNames(f) && AllNames(t)
    ensures forall i :: 0 <= i < |r| ==> r[i] == ".." || IsName(r[i])
    ensures r == [] <==> f == t
  {
    var k := CommonPrefixLength(f, t);
    assert Ups(|f| - k) + t[k..] == [] ==> f == t by {
      if Ups(|f| - k) + t[k..] == [] { assert f == f[..k] && t == t[..k]; }
    }
    Ups(|f| - k) + t[k..]
  }

  /** Node's `path.posix.relative(from, to)` for absolute arguments: the steps from the
      names of `from` to those of `to`, joined by "/". */
  function Relative(from: string, to: string): (r: string)
    requires IsAbsolute(from) && IsAbsolute(to)
    ensures r == "" <==> Segments(from) == Segments(to)
    ensures r != "" ==> forall i :: 0 <= i < |Split(r, Sep)| ==> Split(r, Sep)[i] == ".." || IsName(Split(r, Sep)[i])
  {
    var steps := Steps(Segments(from), Segments(to));
    RelativeSteps(steps);
    if steps == [] then "" else JoinWith(steps, Sep)
  }

  /** Walking the steps from `f` reaches `t`. */
  lemma {:induction false} WalkSteps(f: seq<string>, t: seq<string>)
    requires AllNames(f) && AllNames(t)
    ensures Walk(f, Steps(f, t), false) == t
  {
    var k := CommonPrefixLength(f, t);
    assert AllNames(t[k..]);
    WalkUpsThenNames(f, |f| - k, t[k..], false);
    assert f[..|f| - (|f| - k)] + t[k..] == t;
  }

  lemma {:induction false} RelativeSteps(steps: seq<string>)
    requires forall i :: 0 <= i < |steps| ==> steps[i] == ".." || IsName(steps[i])
    ensures steps != [] ==> JoinWith(steps, Sep) != "" && Split(JoinWith(steps, Sep), Sep) == steps
  {
    if steps != [] {
      forall i | 0 <= i < |steps| ensures steps[i] != "" && NoEmptySegment(steps[i], Sep) && Sep !in steps[i] {
        NoSepHasNoEmptySegment(steps[i], Sep);
      }
      JoinWithNoEmptySegment(steps, Sep);
      SplitJoin(steps, Sep);
    }
  }

  lemma {:induction false} WalkAppend(stack: seq<string>, a: seq<string>, b: seq<string>, allowAboveRoot: bool)
    ensures Walk(stack, a + b, allowAboveRoot) == Walk(Walk(stack, a, allowAboveRoot), b, allowAboveRoot)
    decreases |a|
  {
    if a == [] {
      assert a + b == b;
    } else {
      assert (a + b)[0] == a[0] && (a + b)[1..] == a[1..] + b;
      WalkAppend(Push(stack, a[0], allowAboveRoot), a[1..], b, allowAboveRoot);
    }
  }

  /** Walking plain names pushes each of them. */
  lemma {:induction false} WalkNames(stack: seq<string>, names: seq<string>, allowAboveRoot: bool)
    requires AllNames(names)
    ensures Walk(stack, names, allowAboveRoot) == stack + names
    decreases |names|
  {
    if names != [] {
      var rest := names[1..];
      assert IsName(names[0]);
      assert Push(stack, names[0], allowAboveRoot) == stack + [names[0]];
      assert AllNames(rest) by {
        forall i | 0 <= i < |rest| ensures IsName(rest[i]) { assert rest[i] == names[i + 1]; }
      }
      WalkNames(stack + [names[0]], rest, allowAboveRoot);
      assert stack + [names[0]] + rest == stack + names;
    }
  }

  /** Walking `n` ".." pieces over plain names pops `n` of them. */
  lemma {:induction false} WalkUps(stack: seq<string>, n: nat, allowAboveRoot: bool)
    requires AllNames(stack) && n <= |stack|
    ensures Walk(stack, Ups(n), allowAboveRoot) == stack[..|stack| - n]
    decreases n
  {
    if n > 0 {
      assert stack[|stack| - 1] != "..";
      assert Ups(n)[1..] == Ups(n - 1);
      var popped := stack[..|stack| - 1];
      WalkUps(popped, n - 1, allowAboveRoot);
      assert popped[..|popped| - (n - 1)] == stack[..|stack| - n];
    }
  }

  /** Parsing an absolute path that is already normalised gives back its names. */
  lemma {:induction false} SegmentsAbs(names: seq<string>)
    requires AllNames(names)
    ensures Segments(Abs(names)) == names
  {
    SplitConcat("", JoinWith(names, Sep), Sep);
    assert Abs(names) == "" + [Sep] + JoinWith(names, Sep);
    assert Split("", Sep) == [""];
    if names == [] {
      assert Split(Abs(names), Sep) == ["", ""];
      assert Walk([], ["", ""], false) == Walk([], [""], false) == Walk([], [], false);
    } else {
      SplitJoin(names, Sep);
      assert Split(Abs(names), Sep) == [""] + names;
      WalkNames([], names, false);
    }
  }

  /** The names of `a + "/" + b` are those of `a` walked further by the pieces of `b`. */
  lemma {:induction false} SegmentsAppend(a: string, b: string)
    requires IsAbsolute(a)
    ensures IsAbsolute(a + [Sep] + b)
    ensures Segments(a + [Sep] + b) == Walk(Segments(a), Split(b, Sep), false)
  {
    SplitConcat(a, b, Sep);
    WalkAppend([], Split(a, Sep), Split(b, Sep), false);
  }

  /** Joining a relative path without a trailing "/" to a normalised absolute path. */
  lemma {:induction false} JoinAbs(names: seq<string>, p: string)
    requires AllNames(names)
    requires p != "" && p[|p| - 1] != Sep
    ensures AllNames(Walk(names, Split(p, Sep), false))
    ensures Join(Abs(names), p) == Abs(Walk(names, Split(p, Sep), false))
  {
    var s := Abs(names) + [Sep] + p;
    SegmentsAppend(Abs(names), p);
    SegmentsAbs(names);
    assert s[|s| - 1] == p[|p| - 1];
  }

  lemma {:induction false} TrimLastNameAfter(d: string, x: string)
    requires d != "" && (|d| == 1 || d[|d| - 1] == Sep)
    requires Sep !in x
    ensures TrimLastName(d + x) == d
    decreases |x|
  {
    if x == [] {
      assert d + x == d;
    } else {
      var x' := x[..|x| - 1];
      assert Sep !in x' by {
        forall c | c in x' ensures c != Sep { assert c in x; }
      }
      assert (d + x)[..|d + x| - 1] == d + x';
      assert (d + x)[|d + x| - 1] == x[|x| - 1] && x[|x| - 1] in x;
      TrimLastNameAfter(d, x');
    }
  }

  /** The directory of a normalised absolute path is the path without its last name. */
  lemma {:induction false} DirnameAbs(names: seq<string>, x: string)
    requires AllNames(names) && IsName(x)
    ensures Dirname(Abs(names + [x])) == Abs(names)
  {
    var s := Abs(names + [x]);
    var d := ParentPrefix(names);
    AbsSnoc(names, x);
    assert x[|x| - 1] in x;
    assert s[|s| - 1] == x[|x| - 1];
    assert TrimTrailingSeps(s) == s;
    TrimLastNameAfter(d, x);
    assert s[..|d| - 1] == d[..|d| - 1];
  }

  /** `Abs(names)` followed by the separator that precedes a further name. */
  function ParentPrefix(names: seq<string>): string {
    if names == [] then [Sep] else Abs(names) + [Sep]
  }

  lemma {:induction false} AbsSnoc(names: seq<string>, x: string)
    requires AllNames(names) && IsName(x)
    ensures Abs(names + [x]) == ParentPrefix(names) + x
    ensures |ParentPrefix(names)| > 0 && (|ParentPrefix(names)| == 1 || ParentPrefix(names)[|ParentPrefix(names)| - 1] == Sep)
    ensures names == [] ==> |ParentPrefix(names)| == 1
    ensures names != [] ==> |ParentPrefix(names)| > 2 && ParentPrefix(names)[..|ParentPrefix(names)| - 1] == Abs(names)
  {
    var p := ParentPrefix(names);
    if names == [] {
      assert names + [x] == [x];
      assert p == [Sep];
    } else {
      var j := JoinWith(names, Sep);
      var a := [Sep] + j;
      JoinWithAppend(names, [x], Sep);
      assert JoinWith([x], Sep) == x;
      assert JoinWith(names + [x], Sep) == j + [Sep] + x;
      assert j != "" by {
        assert names[0] != "";
        JoinWithHead(names, Sep);
      }
      assert p == a + [Sep];
      assert Abs(names + [x]) == [Sep] + (j + [Sep] + x);
      assert [Sep] + (j + [Sep] + x) == a + [Sep] + x;
      assert |p| == |j| + 2;
      assert p[|p| - 1] == Sep;
      assert p[..|p| - 1] == a;
    }
  }

  /** `relative` completes the round trip: resolving its result from `from` reaches `to`. */
  lemma {:induction false} RelativeRoundTrip(from: string, to: string)
    requires IsAbsolute(from) && IsAbsolute(to)
    ensures Segments(from + [Sep] + Relative(from, to)) == Segments(to)
  {
    var f, t := Segments(from), Segments(to);
    var steps := Steps(f, t);
    var r := Relative(from, to);
    SegmentsAppend(from, r);
    RelativeSteps(steps);
    if steps == [] {
      assert Split(r, Sep) == [""];
    } else {
      assert Split(r, Sep) == steps;
      WalkSteps(f, t);
    }
  }

  /** Walking "..", `k` times, then plain names: pops `k` names and pushes the others. */
  lemma {:induction false} WalkUpsThenNames(stack: seq<string>, k: nat, more: seq<string>, allowAboveRoot: bool)
    requires AllNames(stack) && k <= |stack| && AllNames(more)
    ensures Walk(stack, Ups(k) + more, allowAboveRoot) == stack[..|stack| - k] + more
  {
    WalkAppend(stack, Ups(k), more, allowAboveRoot);
    WalkUps(stack, k, allowAboveRoot);
    WalkNames(stack[..|stack| - k], more, allowAboveRoot);
  }

  /** Joining a path of `ups` ".." pieces followed by plain names to a normalised absolute
      path: `ups` names are dropped, the others appended. */
  lemma {:induction false} JoinUps(dir: seq<string>, path: string, ups: nat, parts: seq<string>)
    requires AllNames(dir) && AllNames(parts) && ups <= |dir|
    requires Split(path, Sep) == Ups(ups) + parts
    requires path != "" && path[|path| - 1] != Sep
    ensures Join(Abs(dir), path) == Abs(dir[..|dir| - ups] + parts)
  {
    JoinAbs(dir, path);
    WalkUpsThenNames(dir, ups, parts, false);
  }

  lemma {:induction false} AbsAppend(names: seq<string>, more: seq<string>)
    requires |names| > 0 && |more| > 0
    ensures Abs(names + more) == Abs(names) + [Sep] + JoinWith(more, Sep)
  {
    JoinWithAppend(names, more, Sep);
  }

  /** Plain names joined by "/": they split back, end in a name and do not ascend. */
  lemma {:induction false} NamesJoin(parts: seq<string>)
    requires AllNames(parts) && |parts| > 0
    ensures Split(JoinWith(parts, Sep), Sep) == parts
    ensures JoinWith(parts, Sep) != "" && JoinWith(parts, Sep)[|JoinWith(parts, Sep)| - 1] != Sep
    ensures !StartsWith(JoinWith(parts, Sep), "../")
  {
    var j := JoinWith(parts, Sep);
    forall i | 0 <= i < |parts| ensures parts[i] != "" && NoEmptySegment(parts[i], Sep) {
      NoSepHasNoEmptySegment(parts[i], Sep);
    }
    JoinWithNoEmptySegment(parts, Sep);
    SplitJoin(parts, Sep);
    var p := parts[0];
    JoinWithHead(parts, Sep);
    if |j| >= 3 {
      if |parts| == 1 || |p| >= 3 {
        assert j[2] == p[2] && p[2] in p;
      } else if |p| == 2 {
        assert j[..2] == p && j[..2] == j[..3][..2];
      } else {
        assert j[1] == Sep;
      }
    }
  }

  /** Normalising a path that is already normalised changes nothing. */
  lemma {:induction false} NormalizeAbs(names: seq<string>)
    requires AllNames(names)
    ensures Normalize(Abs(names)) == Abs(names)
  {
    var s := Abs(names);
    SegmentsAbs(names);
    assert Walk([], Split(s, Sep), false) == names;
    if names != [] {
      var j := JoinWith(names, Sep);
      NamesJoin(names);
      assert s[|s| - 1] == j[|j| - 1];
      assert Normalize(s) == [Sep] + j + "";
    }
  }

  lemma {:induction false} CommonPrefixDiverge(base: seq<string>, a: seq<string>, b: seq<string>)
    requires a == [] || b == [] || a[0] != b[0]
    ensures CommonPrefixLength(base + a, base + b) == |base|
    decreases |base|
  {
    if base == [] {
      assert base + a == a && base + b == b;
    } else {
      assert (base + a)[1..] == base[1..] + a && (base + b)[1..] == base[1..] + b;
      CommonPrefixDiverge(base[1..], a, b);
    }
  }

  /** From `base + a` to `base + b`, where `a` and `b` part at their first name: one ".."
      per name of `a`, then the names of `b`. */
  lemma {:induction false} RelativeBetween(base: seq<string>, a: seq<string>, b: seq<string>)
    requires AllNames(base + a) && AllNames(base + b)
    requires a == [] || b == [] || a[0] != b[0]
    ensures Relative(Abs(base + a), Abs(base + b)) == JoinWith(Ups(|a|) + b, Sep)
  {
    SegmentsAbs(base + a);
    SegmentsAbs(base + b);
    CommonPrefixDiverge(base, a, b);
    assert (base + b)[|base|..] == b;
    assert Steps(base + a, base + b) == Ups(|a|) + b;
  }
}
