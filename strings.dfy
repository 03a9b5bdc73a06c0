/** Text helpers with the semantics of the Python string and POSIX path
    operations the installers and the build script rely on. */
module Strings {

  /** `str.lower` restricted to ASCII: 'A'..'Z' map to 'a'..'z', everything
      else is left alone. */
  function LowerChar(c: char): (r: char)
    ensures 'A' <= c <= 'Z' ==> r != c && 'a' <= r <= 'z'
    ensures !('A' <= c <= 'Z') ==> r == c
  {
    if 'A' <= c <= 'Z' then (c as int + 32) as char else c
  }

  function Lower(s: string): (r: string)
    ensures |r| == |s|
    ensures forall i :: 0 <= i < |s| ==> r[i] == LowerChar(s[i])
  {
    seq(|s|, i requires 0 <= i < |s| => LowerChar(s[i]))
  }

  /** `pat` starts at index `i` of `s`. */
  predicate OccursAt(s: string, pat: string, i: int)
  {
    0 <= i && i + |pat| <= |s| && s[i..i + |pat|] == pat
  }

  /** Python's substring test `pat in s`. */
  predicate Contains(s: string, pat: string)
  {
    exists i :: 0 <= i <= |s| - |pat| && OccursAt(s, pat, i)
  }

  predicate EndsWith(s: string, suffix: string)
  {
    |suffix| <= |s| && s[|s| - |suffix|..] == suffix
  }

  /** `s.replace(pat, rep)` for a non-empty `pat`: the occurrences are found
      left to right without overlapping, and the inserted text is not
      scanned again. `re.sub` with a pattern free of metacharacters does the
      same. */
  function ReplaceAll(s: string, pat: string, rep: string): string
    requires |pat| > 0
    decreases |s|
  {
    if |s| < |pat| then s
    else if s[..|pat|] == pat then rep + ReplaceAll(s[|pat|..], pat, rep)
    else [s[0]] + ReplaceAll(s[1..], pat, rep)
  }

  /** Text without an occurrence of the pattern is left unchanged. */
  lemma {:induction false} ReplaceAllAbsent(s: string, pat: string, rep: string)
    requires |pat| > 0
    requires !Contains(s, pat)
    ensures ReplaceAll(s, pat, rep) == s
  {
    if |s| >= |pat| {
      assert !OccursAt(s, pat, 0);
      assert s[..|pat|] != pat;
      forall i | OccursAt(s[1..], pat, i) ensures false {
        assert s[1..][i..i + |pat|] == s[i + 1..i + 1 + |pat|];
        assert OccursAt(s, pat, i + 1);
      }
      ReplaceAllAbsent(s[1..], pat, rep);
      assert s == [s[0]] + s[1..];
    }
  }

  /** A prefix in which no occurrence of the pattern starts is copied as it
      is; the replacement goes on in the rest. */
  lemma {:induction false} ReplaceAllSkipsPrefix(x: string, y: string, pat: string, rep: string)
    requires |pat| > 0
    requires forall i :: 0 <= i < |x| ==> !OccursAt(x + y, pat, i)
    ensures ReplaceAll(x + y, pat, rep) == x + ReplaceAll(y, pat, rep)
  {
    if x != [] {
      var s := x + y;
      assert !OccursAt(s, pat, 0);
      assert s[1..] == x[1..] + y;
      forall i | 0 <= i < |x[1..]| ensures !OccursAt(x[1..] + y, pat, i) {
        if OccursAt(x[1..] + y, pat, i) {
          assert s[i + 1..i + 1 + |pat|] == (x[1..] + y)[i..i + |pat|];
          assert OccursAt(s, pat, i + 1);
        }
      }
      ReplaceAllSkipsPrefix(x[1..], y, pat, rep);
      if |s| < |pat| {
        assert ReplaceAll(y, pat, rep) == y;
      } else {
        assert s[..|pat|] == s[0..0 + |pat|];
        calc {
          ReplaceAll(s, pat, rep);
          [s[0]] + ReplaceAll(s[1..], pat, rep);
          [x[0]] + (x[1..] + ReplaceAll(y, pat, rep));
          { assert x == [x[0]] + x[1..]; }
          x + ReplaceAll(y, pat, rep);
        }
      }
    } else {
      assert x + y == y;
    }
  }

  /** An occurrence at the very start is replaced and the scan resumes after it. */
  lemma ReplaceAllAtStart(y: string, pat: string, rep: string)
    requires |pat| > 0
    ensures ReplaceAll(pat + y, pat, rep) == rep + ReplaceAll(y, pat, rep)
  {
    assert (pat + y)[..|pat|] == pat;
    assert (pat + y)[|pat|..] == y;
  }

  /** Replacing inside `x + pat + y`, where the only occurrence of the pattern
      is the one in the middle, substitutes exactly that one. */
  lemma ReplaceSingleOccurrence(x: string, y: string, pat: string, rep: string)
    requires |pat| > 0
    requires forall i :: 0 <= i < |x| ==> !OccursAt(x + pat + y, pat, i)
    requires !Contains(y, pat)
    ensures ReplaceAll(x + pat + y, pat, rep) == x + rep + y
  {
    var t := pat + y;
    assert x + pat + y == x + t;
    ReplaceAllSkipsPrefix(x, t, pat, rep);
    ReplaceAllAtStart(y, pat, rep);
    ReplaceAllAbsent(y, pat, rep);
    assert x + rep + y == x + (rep + y);
  }

  /** Python's `s.split(sep)` for a one-character separator: always at least
      one piece, empty pieces kept. */
  function Split(s: string, sep: char): (r: seq<string>)
    ensures |r| >= 1
  {
    if s == [] then [[]]
    else
      var rest := Split(s[1..], sep);
      if s[0] == sep then [[]] + rest
      else [[s[0]] + rest[0]] + rest[1..]
  }

  /** `sep.join(pieces)`. */
  function JoinWith(pieces: seq<string>, sep: char): string
  {
    if pieces == [] then []
    else if |pieces| == 1 then pieces[0]
    else pieces[0] + [sep] + JoinWith(pieces[1..], sep)
  }

  /** Splitting loses nothing: joining the pieces back gives the original
      text, and no piece holds the separator. */
  lemma SplitJoin(s: string, sep: char)
    ensures JoinWith(Split(s, sep), sep) == s
    ensures forall k :: 0 <= k < |Split(s, sep)| ==> sep !in Split(s, sep)[k]
  {
    SplitJoinBack(s, sep);
    SplitPiecesFree(s, sep);
  }

  lemma {:induction false} SplitJoinBack(s: string, sep: char)
    ensures JoinWith(Split(s, sep), sep) == s
  {
    if s != [] {
      var rest := Split(s[1..], sep);
      SplitJoinBack(s[1..], sep);
      if s[0] == sep {
        assert Split(s, sep) == [[]] + rest;
        assert Split(s, sep)[1..] == rest;
        assert s == [] + [sep] + s[1..];
      } else {
        var r := Split(s, sep);
        assert r == [[s[0]] + rest[0]] + rest[1..];
        if |rest| == 1 {
          assert s == [s[0]] + s[1..];
        } else {
          assert r[1..] == rest[1..];
          assert JoinWith(rest, sep) == rest[0] + [sep] + JoinWith(rest[1..], sep);
          assert s == [s[0]] + s[1..];
        }
      }
    }
  }

  lemma {:induction false} SplitPiecesFree(s: string, sep: char)
    ensures forall k :: 0 <= k < |Split(s, sep)| ==> sep !in Split(s, sep)[k]
  {
    if s != [] {
      var rest := Split(s[1..], sep);
      SplitPiecesFree(s[1..], sep);
      var r := Split(s, sep);
      if s[0] == sep {
        assert r == [[]] + rest;
        forall k | 0 <= k < |r| ensures sep !in r[k] {
          if k > 0 { assert r[k] == rest[k - 1]; }
        }
      } else {
        assert r == [[s[0]] + rest[0]] + rest[1..];
        forall k | 0 <= k < |r| ensures sep !in r[k] {
          if k > 0 { assert r[k] == rest[k]; }
        }
      }
    }
  }

  /** `os.path.join(a, b)` on POSIX for two parts. */
  function Join(a: string, b: string): string
  {
    if |b| > 0 && b[0] == '/' then b
    else if a == [] || a[|a| - 1] == '/' then a + b
    else a + "/" + b
  }

  /** The joined path ends with its second part; a relative part is put
      below the first with exactly one '/' between them; an absolute one
      replaces it. */
  lemma JoinShape(a: string, b: string)
    ensures EndsWith(Join(a, b), b)
    ensures |b| > 0 && b[0] != '/' && |a| > 0 && a[|a| - 1] != '/' ==> Join(a, b) == a + "/" + b
    ensures |b| > 0 && b[0] != '/' && |a| > 0 && a[|a| - 1] == '/' ==> Join(a, b) == a + b
    ensures |b| > 0 && b[0] == '/' ==> Join(a, b) == b
  {
  }

  /** Index of the last occurrence of `c` in `s`, or -1. */
  function LastIndex(s: string, c: char): (i: int)
    ensures -1 <= i < |s|
    ensures 0 <= i ==> s[i] == c
    ensures forall j :: i < j < |s| ==> s[j] != c
  {
    if s == [] then -1
    else if s[|s| - 1] == c then |s| - 1
    else LastIndex(s[..|s| - 1], c)
  }

  function RStrip(s: string, c: char): (r: string)
    ensures |r| <= |s| && r == s[..|r|]
    ensures r == [] || r[|r| - 1] != c
  {
    if s != [] && s[|s| - 1] == c then RStrip(s[..|s| - 1], c) else s
  }

  /** `os.path.dirname` on POSIX: everything up to the last '/', with the
      trailing slashes dropped unless the head is made of slashes only. */
  function Dirname(p: string): string
  {
    var head := p[..LastIndex(p, '/') + 1];
    if head != [] && exists k :: 0 <= k < |head| && head[k] != '/' then RStrip(head, '/')
    else head
  }

  /** The parent of `dir/name`, for a name without '/' and a directory that
      does not end in '/', is that directory. */
  lemma DirnameOfChild(dir: string, name: string)
    requires |dir| > 0 && dir[|dir| - 1] != '/'
    requires '/' !in name
    ensures Dirname(dir + "/" + name) == dir
  {
    var p := dir + "/" + name;
    forall j | |dir| < j < |p| ensures p[j] != '/' {
      assert p[j] == name[j - |dir| - 1];
    }
    assert p[|dir|] == '/';
    var i := LastIndex(p, '/');
    assert i == |dir|;
    var head := p[..|dir| + 1];
    assert head == dir + "/";
    assert head[|dir| - 1] != '/';
    assert RStrip(head, '/') == RStrip(dir, '/');
  }

  /** Lower-casing twice is lower-casing once. */
  lemma LowerIdempotent(s: string)
    ensures Lower(Lower(s)) == Lower(s)
  {
    forall i | 0 <= i < |s| ensures Lower(Lower(s))[i] == Lower(s)[i] {
      assert !('A' <= LowerChar(s[i]) <= 'Z');
    }
  }

  /** The extension part of `os.path.splitext` on POSIX: from the last '.'
      of the final path component, unless that component has nothing but
      dots before it, in which case there is no extension. */
  function Ext(p: string): (r: string)
    ensures r == [] || (r[0] == '.' && EndsWith(p, r) && '/' !in r && '.' !in r[1..])
  {
    var dot := LastIndex(p, '.');
    var sep := LastIndex(p, '/');
    if dot > sep && exists k :: sep + 1 <= k < dot && p[k] != '.' then
      assert forall j :: dot < j < |p| ==> p[j] != '/' && p[j] != '.';
      assert forall j :: 1 <= j < |p[dot..]| ==> p[dot..][j] == p[dot + j];
      p[dot..]
    else []
  }

  /** A name made of a stem with some character other than a dot, a dot,
      and a suffix without dots has that dot and suffix as extension. */
  lemma ExtOfDotted(stem: string, suffix: string)
    requires '/' !in stem && '/' !in suffix && '.' !in suffix
    requires exists k :: 0 <= k < |stem| && stem[k] != '.'
    ensures Ext(stem + "." + suffix) == "." + suffix
  {
    var p := stem + "." + suffix;
    forall j | |stem| < j < |p| ensures p[j] != '.' && p[j] != '/' {
      assert p[j] == suffix[j - |stem| - 1];
    }
    assert p[|stem|] == '.';
    assert LastIndex(p, '.') == |stem|;
    forall j | 0 <= j < |stem| ensures p[j] != '/' {
      assert p[j] == stem[j];
    }
    assert LastIndex(p, '/') == -1;
    var k :| 0 <= k < |stem| && stem[k] != '.';
    assert p[k] != '.';
    assert p[|stem|..] == "." + suffix;
  }

  /** A name with only dots before its last dot has no extension. */
  lemma ExtLeadingDots(p: string)
    requires '/' !in p
    requires forall k :: 0 <= k < LastIndex(p, '.') ==> p[k] == '.'
    ensures Ext(p) == []
  {
    assert LastIndex(p, '/') == -1;
  }

  /** A pattern whose first character never appears does not occur. */
  lemma AbsentFirstChar(s: string, pat: string)
    requires pat != [] && pat[0] !in s
    ensures !Contains(s, pat)
  {
    forall i | 0 <= i <= |s| - |pat| ensures !OccursAt(s, pat, i) {
      assert s[i] in s;
    }
  }

  /** Filling a template `x + pat + y` whose text around the placeholder
      never holds the placeholder's first character. */
  lemma ReplacePlaceholder(x: string, y: string, pat: string, rep: string)
    requires pat != [] && pat[0] !in x && pat[0] !in y
    ensures ReplaceAll(x + pat + y, pat, rep) == x + rep + y
  {
    forall i | 0 <= i < |x| ensures !OccursAt(x + pat + y, pat, i) {
      assert (x + pat + y)[i] == x[i];
    }
    AbsentFirstChar(y, pat);
    ReplaceSingleOccurrence(x, y, pat, rep);
  }

  /** A joined path ends with, hence contains, its last part. */
  lemma JoinContainsLast(a: string, b: string)
    ensures Contains(Join(a, b), b)
  {
    var r := Join(a, b);
    JoinShape(a, b);
    assert OccursAt(r, b, |r| - |b|);
  }
}
