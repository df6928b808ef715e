/** The few JavaScript string and array operations the rule relies on:
    `startsWith`, `split(sep)`, `filter(String)` and `join(sep)`,
    with the facts about them that the path model needs. */
module Strings {

  /** JavaScript `s.startsWith(prefix)`. */
  predicate StartsWith(s: string, prefix: string) {
    |prefix| <= |s| && s[..|prefix|] == prefix
  }

  /** JavaScript `s.split(sep)` for a one-character separator: the pieces between
      separators, in order. There is always at least one piece ("".split("/") is [""]). */
  function Split(s: string, sep: char): (r: seq<string>)
    ensures |r| >= 1
    ensures forall i :: 0 <= i < |r| ==> sep !in r[i]
    decreases |s|
  {
    if s == [] then [""]
    else if s[0] == sep then [""] + Split(s[1..], sep)
    else
      var t := Split(s[1..], sep);
      [[s[0]] + t[0]] + t[1..]
  }

  /** The combined length of a list of strings. */
  function TotalLength(parts: seq<string>): nat {
    if parts == [] then 0 else |parts[0]| + TotalLength(parts[1..])
  }

  /** JavaScript `parts.join(sep)`: the elements with one separator between each pair. */
  function JoinWith(parts: seq<string>, sep: char): string
  {
    if parts == [] then ""
    else if |parts| == 1 then parts[0]
    else parts[0] + [sep] + JoinWith(parts[1..], sep)
  }

  /** JavaScript `parts.filter(String)`: keeps the non-empty strings, in order. */
  function NonEmpty(parts: seq<string>): (r: seq<string>)
    ensures |r| <= |parts|
    ensures forall i :: 0 <= i < |r| ==> r[i] != ""
    ensures forall s :: s in r <==> s in parts && s != ""
    ensures (forall i :: 0 <= i < |parts| ==> parts[i] != "") ==> r == parts
  {
    if parts == [] then []
    else if parts[0] == "" then NonEmpty(parts[1..])
    else [parts[0]] + NonEmpty(parts[1..])
  }

  /** `startsWith` compares character by character. */
  lemma {:induction false} StartsWithChars(s: string, prefix: string)
    ensures StartsWith(s, prefix) <==>
            |prefix| <= |s| && forall i :: 0 <= i < |prefix| ==> s[i] == prefix[i]
  {
    if |prefix| <= |s| && forall i :: 0 <= i < |prefix| ==> s[i] == prefix[i] {
      assert s[..|prefix|] == prefix;
    }
  }

  /** A join is as long as its elements plus one separator between each pair. */
  lemma {:induction false} JoinWithLength(parts: seq<string>, sep: char)
    requires |parts| > 0
    ensures |JoinWith(parts, sep)| == TotalLength(parts) + |parts| - 1
    decreases |parts|
  {
    if |parts| > 1 {
      JoinWithLength(parts[1..], sep);
    }
  }

  /** `filter(String)` works element by element: filtering a concatenation filters each
      part, in order. */
  lemma {:induction false} NonEmptyAppend(a: seq<string>, b: seq<string>)
    ensures NonEmpty(a + b) == NonEmpty(a) + NonEmpty(b)
    decreases |a|
  {
    if a == [] {
      assert a + b == b;
    } else {
      assert (a + b)[0] == a[0] && (a + b)[1..] == a[1..] + b;
      NonEmptyAppend(a[1..], b);
    }
  }

  /** A single string is kept exactly when it is not empty. */
  lemma {:induction false} NonEmptySingle(s: string)
    ensures NonEmpty([s]) == if s == "" then [] else [s]
  {
    assert [s][1..] == [];
  }

  /** `s` splits into non-empty pieces: it has no leading or trailing separator and no
      two separators in a row (the empty string has no pieces at all). */
  predicate NoEmptySegment(s: string, sep: char) {
    s == "" ||
    (s[0] != sep && s[|s| - 1] != sep &&
     forall i :: 0 <= i < |s| - 1 ==> !(s[i] == sep && s[i + 1] == sep))
  }

  lemma {:induction false} JoinSplit(s: string, sep: char)
    ensures JoinWith(Split(s, sep), sep) == s
    decreases |s|
  {
    if s == [] {
    } else if s[0] == sep {
      JoinSplit(s[1..], sep);
      assert s == [sep] + s[1..];
    } else {
      var t := Split(s[1..], sep);
      JoinSplit(s[1..], sep);
      if |t| == 1 {
        assert s == [s[0]] + s[1..];
      } else {
        assert t == [t[0]] + t[1..];
        assert JoinWith(t, sep) == t[0] + [sep] + JoinWith(t[1..], sep);
        assert ([[s[0]] + t[0]] + t[1..])[1..] == t[1..];
        assert s == [s[0]] + s[1..];
      }
    }
  }

  lemma {:induction false} SplitJoin(parts: seq<string>, sep: char)
    requires |parts| >= 1
    requires forall i :: 0 <= i < |parts| ==> sep !in parts[i]
    ensures Split(JoinWith(parts, sep), sep) == parts
    decreases |parts|, |parts[0]|
  {
    var p := parts[0];
    if p == [] {
      if |parts| == 1 {
      } else {
        var rest := JoinWith(parts[1..], sep);
        assert JoinWith(parts, sep) == [sep] + rest;
        assert ([sep] + rest)[1..] == rest;
        SplitJoin(parts[1..], sep);
        assert parts == [""] + parts[1..];
      }
    } else {
      var parts' := [p[1..]] + parts[1..];
      assert sep !in p[1..] by {
        forall c | c in p[1..] ensures c != sep { assert c in p; }
      }
      assert forall i :: 0 <= i < |parts'| ==> sep !in parts'[i] by {
        forall i | 0 <= i < |parts'| ensures sep !in parts'[i] {
          if i > 0 { assert parts'[i] == parts[i]; }
        }
      }
      SplitJoin(parts', sep);
      assert parts'[1..] == parts[1..];
      var s := JoinWith(parts, sep);
      assert s == [p[0]] + JoinWith(parts', sep) by {
        if |parts| == 1 {
          assert p == [p[0]] + p[1..];
        } else {
          assert p == [p[0]] + p[1..];
        }
      }
      assert s[0] == p[0] && p[0] in p;
      assert s[1..] == JoinWith(parts', sep);
      assert parts == [[p[0]] + parts'[0]] + parts'[1..] by {
        assert p == [p[0]] + p[1..];
      }
    }
  }

  lemma {:induction false} JoinWithAppend(a: seq<string>, b: seq<string>, sep: char)
    requires |a| >= 1 && |b| >= 1
    ensures JoinWith(a + b, sep) == JoinWith(a, sep) + [sep] + JoinWith(b, sep)
    decreases |a|
  {
    if |a| == 1 {
      assert (a + b)[1..] == b;
    } else {
      JoinWithAppend(a[1..], b, sep);
      assert (a + b)[1..] == a[1..] + b;
    }
  }

  /** Splitting at a separator between `a` and `b` splits each side separately. */
  lemma {:induction false} SplitConcat(a: string, b: string, sep: char)
    ensures Split(a + [sep] + b, sep) == Split(a, sep) + Split(b, sep)
  {
    var pa, pb := Split(a, sep), Split(b, sep);
    JoinSplit(a, sep);
    JoinSplit(b, sep);
    JoinWithAppend(pa, pb, sep);
    assert forall i :: 0 <= i < |pa + pb| ==> sep !in (pa + pb)[i] by {
      forall i | 0 <= i < |pa + pb| ensures sep !in (pa + pb)[i] {
        if i < |pa| { assert (pa + pb)[i] == pa[i]; } else { assert (pa + pb)[i] == pb[i - |pa|]; }
      }
    }
    SplitJoin(pa + pb, sep);
  }

  /** A joined list starts with its first element, followed by the separator when there are more. */
  lemma {:induction false} JoinWithHead(parts: seq<string>, sep: char)
    requires |parts| >= 1
    ensures |parts| == 1 ==> JoinWith(parts, sep) == parts[0]
    ensures |parts| > 1 ==> StartsWith(JoinWith(parts, sep), parts[0] + [sep])
  {
    if |parts| > 1 {
      var j := JoinWith(parts, sep);
      assert j == (parts[0] + [sep]) + JoinWith(parts[1..], sep);
      assert j[..|parts[0] + [sep]|] == parts[0] + [sep];
    }
  }

  lemma {:induction false} NoSepHasNoEmptySegment(s: string, sep: char)
    requires sep !in s
    ensures NoEmptySegment(s, sep)
  {
    if s != "" {
      assert s[0] in s && s[|s| - 1] in s;
      forall i | 0 <= i < |s| - 1 ensures !(s[i] == sep && s[i + 1] == sep) {
        assert s[i] in s;
      }
    }
  }

  lemma {:induction false} ConcatNoEmptySegment(a: string, b: string, sep: char)
    requires a != "" && b != ""
    requires NoEmptySegment(a, sep) && NoEmptySegment(b, sep)
    ensures NoEmptySegment(a + [sep] + b, sep)
  {
    var s := a + [sep] + b;
    assert s[0] == a[0] && s[|s| - 1] == b[|b| - 1];
    forall i | 0 <= i < |s| - 1 ensures !(s[i] == sep && s[i + 1] == sep) {
      if i < |a| - 1 {
        assert s[i] == a[i] && s[i + 1] == a[i + 1];
      } else if i == |a| - 1 {
        assert s[i] == a[|a| - 1];
      } else if i == |a| {
        assert s[i + 1] == b[0];
      } else {
        assert s[i] == b[i - |a| - 1] && s[i + 1] == b[i - |a|];
      }
    }
  }

  /** Joining non-empty pieces that have no empty segment of their own leaves no empty segment. */
  lemma {:induction false} JoinWithNoEmptySegment(parts: seq<string>, sep: char)
    requires forall i :: 0 <= i < |parts| ==> parts[i] != "" && NoEmptySegment(parts[i], sep)
    ensures NoEmptySegment(JoinWith(parts, sep), sep)
    ensures |parts| > 0 ==> JoinWith(parts, sep) != ""
    decreases |parts|
  {
    if |parts| > 1 {
      JoinWithNoEmptySegment(parts[1..], sep);
      ConcatNoEmptySegment(parts[0], JoinWith(parts[1..], sep), sep);
    }
  }
}
