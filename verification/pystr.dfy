/**
 * The parts of Python's `str` that the relay and the prompt builders use:
 * `p in s`, `s.split(sep)`, `sep.join(parts)`, `s.replace(old, new)` and
 * `s.strip()`, on strings as sequences of code points.
 */
module PyStr {

  /** `c.isspace()`: the characters Python counts as whitespace, which are
      also the ones `\s` matches in a `str` pattern and `strip()` removes. */
  predicate IsSpace(c: char) {
    ('\t' <= c <= '\r') || ('\U{1C}' <= c <= '\U{1F}') || c == ' '
    || c == '\U{85}' || c == '\U{A0}' || c == '\U{1680}'
    || ('\U{2000}' <= c <= '\U{200A}') || c == '\U{2028}' || c == '\U{2029}'
    || c == '\U{202F}' || c == '\U{205F}' || c == '\U{3000}'
  }

  predicate StartsWith(s: string, p: string) {
    |p| <= |s| && s[..|p|] == p
  }

  /** `p in s` */
  predicate Contains(s: string, p: string)
    decreases |s|
  {
    StartsWith(s, p) || (|s| > 0 && Contains(s[1..], p))
  }

  /** `s.split(sep)`: the pieces between the leftmost non-overlapping occurrences of `sep`. */
  function Split(s: string, sep: string): (parts: seq<string>)
    requires sep != []
    ensures |parts| >= 1
    decreases |s|
  {
    if |s| < |sep| then [s]
    else if s[..|sep|] == sep then [[]] + Split(s[|sep|..], sep)
    else
      var rest := Split(s[1..], sep);
      [[s[0]] + rest[0]] + rest[1..]
  }

  /** `sep.join(parts)` */
  function Join(parts: seq<string>, sep: string): string
  {
    if |parts| == 0 then []
    else if |parts| == 1 then parts[0]
    else parts[0] + sep + Join(parts[1..], sep)
  }

  /** `s.replace(pat, rep)`, which CPython computes as `rep.join(s.split(pat))`. */
  function Replace(s: string, pat: string, rep: string): (r: string)
    requires pat != []
    ensures !Contains(s, pat) ==> r == s
  {
    if !Contains(s, pat) then SplitAbsent(s, pat); Join(Split(s, pat), rep)
    else Join(Split(s, pat), rep)
  }

  /** Drops the leading whitespace (`s.lstrip()`). */
  function LStrip(s: string): (r: string)
    ensures |r| <= |s| && r == s[|s| - |r|..]
    ensures forall i :: 0 <= i < |s| - |r| ==> IsSpace(s[i])
    ensures r != [] ==> !IsSpace(r[0])
    decreases |s|
  {
    if |s| > 0 && IsSpace(s[0]) then LStrip(s[1..]) else s
  }

  /** Drops the trailing whitespace (`s.rstrip()`). */
  function RStrip(s: string): (r: string)
    ensures |r| <= |s| && r == s[..|r|]
    ensures forall i :: |r| <= i < |s| ==> IsSpace(s[i])
    ensures r != [] ==> !IsSpace(r[|r| - 1])
    decreases |s|
  {
    if |s| > 0 && IsSpace(s[|s| - 1]) then RStrip(s[..|s| - 1]) else s
  }

  /** `s.strip()` */
  function Strip(s: string): (r: string)
    ensures |r| <= |s|
    ensures r != [] ==> !IsSpace(r[0]) && !IsSpace(r[|r| - 1])
  {
    RStrip(LStrip(s))
  }

  // ---------------------------------------------------------------- `in`

  lemma {:induction false} ContainsLength(s: string, p: string)
    requires Contains(s, p)
    ensures |p| <= |s|
    decreases |s|
  {
    if !StartsWith(s, p) { ContainsLength(s[1..], p); }
  }

  lemma {:induction false} ContainsInLeft(x: string, y: string, p: string)
    requires Contains(x, p)
    ensures Contains(x + y, p)
    decreases |x|
  {
    if StartsWith(x, p) {
      assert (x + y)[..|p|] == x[..|p|];
    } else {
      ContainsInLeft(x[1..], y, p);
      assert (x + y)[1..] == x[1..] + y;
    }
  }

  lemma {:induction false} ContainsInRight(x: string, y: string, p: string)
    requires Contains(y, p)
    ensures Contains(x + y, p)
    decreases |x|
  {
    if x != [] {
      ContainsInRight(x[1..], y, p);
      assert (x + y)[1..] == x[1..] + y;
    } else {
      assert x + y == y;
    }
  }

  lemma EmptyRight(s: string)
    ensures s + [] == s
  {
  }

  lemma ContainsSelf(s: string)
    ensures Contains(s, s)
  {
    assert s[..|s|] == s;
  }

  lemma PrefixCharIn(s: string, p: string, k: nat)
    requires StartsWith(s, p) && k < |p|
    ensures s[k] in p
  {
    assert s[k] == s[..|p|][k];
  }

  /** An occurrence of `p` cannot straddle a character that `p` does not contain. */
  lemma {:induction false} ContainsAcross(x: string, c: char, y: string, p: string)
    requires c !in p
    requires Contains(x + [c] + y, p)
    ensures Contains(x, p) || Contains(y, p)
    decreases |x|
  {
    var s := x + [c] + y;
    if StartsWith(s, p) {
      if |p| <= |x| {
        assert s[..|p|] == x[..|p|];
      } else {
        PrefixCharIn(s, p, |x|);
        assert false;
      }
    } else if x == [] {
      assert s[1..] == y;
    } else {
      assert s[1..] == x[1..] + [c] + y;
      ContainsAcross(x[1..], c, y, p);
      if Contains(x[1..], p) { assert x == [x[0]] + x[1..]; ContainsInRight([x[0]], x[1..], p); }
    }
  }

  /** A string whose characters all differ from `p`'s first one does not contain `p`. */
  lemma {:induction false} AbsentByFirstChar(s: string, p: string)
    requires p != [] && p[0] !in s
    ensures !Contains(s, p)
    decreases |s|
  {
    if |s| > 0 { AbsentByFirstChar(s[1..], p); }
  }

  /** Two strings of the same length contain one another only when equal. */
  lemma SameLengthContains(s: string, p: string)
    requires |s| == |p| && Contains(s, p)
    ensures s == p
  {
    if !StartsWith(s, p) { ContainsLength(s[1..], p); }
  }

  // ---------------------------------------------------------- split / join

  lemma {:induction false} SplitAbsent(s: string, sep: string)
    requires sep != [] && !Contains(s, sep)
    ensures Split(s, sep) == [s]
    decreases |s|
  {
    if |s| >= |sep| {
      assert s[..|sep|] != sep;
      assert !Contains(s[1..], sep);
      SplitAbsent(s[1..], sep);
      assert s == [s[0]] + s[1..];
    }
  }

  lemma JoinCons(head: string, tail: seq<string>, sep: string)
    requires tail != []
    ensures Join([head] + tail, sep) == head + sep + Join(tail, sep)
  {
    assert ([head] + tail)[1..] == tail;
  }

  lemma JoinHeadGrow(c: char, parts: seq<string>, sep: string)
    requires parts != []
    ensures Join([[c] + parts[0]] + parts[1..], sep) == [c] + Join(parts, sep)
  {
    if |parts| > 1 {
      JoinCons([c] + parts[0], parts[1..], sep);
      assert parts == [parts[0]] + parts[1..];
      JoinCons(parts[0], parts[1..], sep);
    }
  }

  /** Splitting and joining back with the same separator gives the string back. */
  lemma {:induction false} JoinSplit(s: string, sep: string)
    requires sep != []
    ensures Join(Split(s, sep), sep) == s
    decreases |s|
  {
    if |s| < |sep| {
    } else if s[..|sep|] == sep {
      JoinSplit(s[|sep|..], sep);
      JoinCons([], Split(s[|sep|..], sep), sep);
      Halves(s, |sep|);
      EmptyLeft(sep, s[|sep|..]);
    } else {
      var rest := Split(s[1..], sep);
      JoinSplit(s[1..], sep);
      JoinHeadGrow(s[0], rest, sep);
      Halves(s, 1);
    }
  }

  /** A string is its two halves at any cut. */
  lemma Halves(s: string, n: nat)
    requires n <= |s|
    ensures s[..n] + s[n..] == s
    ensures n == 1 ==> [s[0]] + s[1..] == s
  {
  }

  lemma EmptyLeft(a: string, b: string)
    ensures [] + a + b == a + b
  {
  }

  lemma JoinHeadPrefix(parts: seq<string>, sep: string)
    requires parts != []
    ensures |parts[0]| <= |Join(parts, sep)| && Join(parts, sep)[..|parts[0]|] == parts[0]
  {
    if |parts| > 1 {
      assert Join(parts, sep) == parts[0] + (sep + Join(parts[1..], sep));
    }
  }

  /** No piece of `s.split(sep)` contains `sep`. */
  lemma {:induction false} SplitPiecesFree(s: string, sep: string)
    requires sep != []
    ensures forall part <- Split(s, sep) :: !Contains(part, sep)
    decreases |s|
  {
    if |s| < |sep| {
      if Contains(s, sep) { ContainsLength(s, sep); }
    } else if s[..|sep|] == sep {
      SplitPiecesFree(s[|sep|..], sep);
      assert !Contains([], sep);
    } else {
      var rest := Split(s[1..], sep);
      SplitPiecesFree(s[1..], sep);
      assert rest[0] in rest;
      var head := [s[0]] + rest[0];
      JoinSplit(s[1..], sep);
      JoinHeadPrefix(rest, sep);
      assert head == s[..|head|];
      assert head[1..] == rest[0];
      assert !Contains(head, sep);
      forall part <- Split(s, sep) ensures !Contains(part, sep) {
        if part != head { assert part in rest[1..]; }
      }
    }
  }

  /** `s.split(sep)[0]`: the prefix of `s` before the first `sep`, or all of `s` when there is none. */
  lemma SplitHead(s: string, sep: string)
    requires sep != []
    ensures var h := Split(s, sep)[0];
      && |h| <= |s| && s[..|h|] == h
      && !Contains(h, sep)
      && (Contains(s, sep) <==> StartsWith(s[|h|..], sep))
      && (!Contains(s, sep) ==> h == s)
  {
    var parts := Split(s, sep);
    var h := parts[0];
    JoinSplit(s, sep);
    JoinHeadPrefix(parts, sep);
    SplitPiecesFree(s, sep);
    assert h in parts;
    if |parts| > 1 {
      assert s == h + (sep + Join(parts[1..], sep));
      AfterHead(s, h, sep, Join(parts[1..], sep));
      ContainsInRight(h, s[|h|..], sep);
    } else {
      assert s == h;
      assert s[|h|..] == [];
    }
  }

  lemma AfterHead(s: string, h: string, sep: string, rest: string)
    requires s == h + (sep + rest)
    ensures s[|h|..] == sep + rest && StartsWith(s[|h|..], sep) && s == h + s[|h|..]
  {
    assert (sep + rest)[..|sep|] == sep;
  }

  /** No occurrence of `sep` starts inside `s.split(sep)[0]`: the cut is at the leftmost one. */
  lemma {:induction false} SplitHeadLeftmost(s: string, sep: string)
    requires sep != []
    ensures forall j :: 0 <= j < |Split(s, sep)[0]| && j <= |s| ==> !StartsWith(s[j..], sep)
    decreases |s|
  {
    var h := Split(s, sep)[0];
    if |s| < |sep| {
    } else if s[..|sep|] == sep {
    } else {
      SplitHeadLeftmost(s[1..], sep);
      var rest := Split(s[1..], sep);
      JoinSplit(s[1..], sep);
      JoinHeadPrefix(rest, sep);
      assert h == [s[0]] + rest[0];
      forall j | 0 <= j < |h| ensures !StartsWith(s[j..], sep) {
        if j > 0 { assert s[j..] == s[1..][j - 1..]; }
      }
    }
  }

  /** When `sep` occurs right after `a`, `s.split(sep)[0]` ends no later than `a`. */
  lemma SplitHeadWithin(a: string, sep: string, b: string)
    requires sep != []
    ensures |Split(a + sep + b, sep)[0]| <= |a|
    ensures a[..|Split(a + sep + b, sep)[0]|] == Split(a + sep + b, sep)[0]
  {
    var s := a + sep + b;
    SplitHead(s, sep);
    SplitHeadLeftmost(s, sep);
    assert s[|a|..] == sep + b;
    assert StartsWith(s[|a|..], sep);
    var h := Split(s, sep)[0];
    assert s[..|h|] == a[..|h|];
  }

  /** Whatever a piece of a join contains, the join contains. */
  lemma {:induction false} JoinKeepsPieces(parts: seq<string>, sep: string, i: nat, q: string)
    requires i < |parts| && Contains(parts[i], q)
    ensures Contains(Join(parts, sep), q)
    decreases |parts|
  {
    if |parts| > 1 {
      var tail := Join(parts[1..], sep);
      if i == 0 {
        ContainsInLeft(parts[0], sep + tail, q);
        assert parts[0] + sep + tail == parts[0] + (sep + tail);
      } else {
        JoinKeepsPieces(parts[1..], sep, i - 1, q);
        ContainsInRight(parts[0] + sep, tail, q);
      }
    }
  }

  /** An occurrence in `s.split(sep)`'s pieces is an occurrence in `s`. */
  lemma SplitPieceContains(s: string, sep: string, i: nat, q: string)
    requires sep != [] && i < |Split(s, sep)| && Contains(Split(s, sep)[i], q)
    ensures Contains(s, q)
  {
    JoinKeepsPieces(Split(s, sep), sep, i, q);
    JoinSplit(s, sep);
  }

  /** Replacing a pattern that occurs leaves at least one copy of the replacement. */
  lemma ReplaceHoldsRep(s: string, pat: string, rep: string)
    requires pat != [] && Contains(s, pat)
    ensures Contains(Replace(s, pat, rep), rep)
  {
    var parts := Split(s, pat);
    JoinSplit(s, pat);
    SplitPiecesFree(s, pat);
    assert parts[0] in parts;
    assert parts == [parts[0]] + parts[1..];
    JoinCons(parts[0], parts[1..], rep);
    ContainsSelf(rep);
    ContainsInRight(parts[0], rep, rep);
    ContainsInLeft(parts[0] + rep, Join(parts[1..], rep), rep);
  }

  /** A single occurrence of `sep`, the first character of which `x` lacks, splits in two. */
  lemma {:induction false} SplitSingle(x: string, sep: string, y: string)
    requires sep != [] && sep[0] !in x && !Contains(y, sep)
    ensures Split(x + sep + y, sep) == [x, y]
    decreases |x|
  {
    var s := x + sep + y;
    if x == [] {
      assert s == sep + y;
      assert s[..|sep|] == sep && s[|sep|..] == y;
      SplitAbsent(y, sep);
    } else {
      ConsParts(x, sep, y);
      TailLacks(x, sep[0]);
      SplitSingle(x[1..], sep, y);
    }
  }

  /** The first character of `x + sep + y` and the rest, for a non-empty `x`. */
  lemma ConsParts(x: string, sep: string, y: string)
    requires x != [] && sep != [] && sep[0] !in x
    ensures var s := x + sep + y;
      && |sep| <= |s| && s[..|sep|] != sep
      && s[1..] == x[1..] + sep + y && [x[0]] + x[1..] == x
  {
    var s := x + sep + y;
    assert x[0] in x;
    assert s[..|sep|][0] == x[0];
  }

  lemma TailLacks(x: string, c: char)
    requires x != [] && c !in x
    ensures c !in x[1..]
  {
    forall k | 0 <= k < |x| - 1 ensures x[1..][k] != c {
      assert x[1..][k] == x[k + 1];
    }
  }

  /** Replacing that single occurrence. */
  lemma ReplaceSingle(x: string, pat: string, y: string, rep: string)
    requires pat != [] && pat[0] !in x && !Contains(y, pat)
    ensures Replace(x + pat + y, pat, rep) == x + rep + y
  {
    SplitSingle(x, pat, y);
    assert Replace(x + pat + y, pat, rep) == Join([x, y], rep);
    assert [x, y][1..] == [y];
    assert Join([x, y], rep) == x + rep + Join([y], rep);
  }

  /** Joining one more piece appends the separator and the piece: `''.join` of a buffer is the
      old buffer's text followed by the new chunk. */
  lemma {:induction false} JoinAppend(parts: seq<string>, x: string, sep: string)
    ensures Join(parts + [x], sep) == if parts == [] then x else Join(parts, sep) + sep + x
    decreases |parts|
  {
    if parts == [] {
      assert parts + [x] == [x];
    } else if |parts| == 1 {
      assert parts + [x] == [parts[0], x];
      assert [parts[0], x][1..] == [x];
    } else {
      var t := (parts + [x])[1..];
      assert t == parts[1..] + [x];
      JoinAppend(parts[1..], x, sep);
      AppendAssoc3(parts[0] + sep, Join(parts[1..], sep), sep, x);
    }
  }

  lemma AppendAssoc3(a: string, b: string, c: string, d: string)
    ensures a + (b + c + d) == a + b + c + d
  {
  }

  // ------------------------------------------------------------ strip

  /** A string with no whitespace at either end is its own `strip()`. */
  lemma Stripped(s: string)
    requires s != [] && !IsSpace(s[0]) && !IsSpace(s[|s| - 1])
    ensures Strip(s) == s
  {
  }

  /** Stripping twice is stripping once. */
  lemma StripIdempotent(s: string)
    ensures Strip(Strip(s)) == Strip(s)
  {
    var r := Strip(s);
    assert LStrip(r) == r;
    assert RStrip(r) == r;
  }

  /** A prefix contains nothing that the whole does not. */
  lemma PrefixContains(s: string, n: nat, q: string)
    requires n <= |s| && Contains(s[..n], q)
    ensures Contains(s, q)
  {
    assert s == s[..n] + s[n..];
    ContainsInLeft(s[..n], s[n..], q);
  }

  /** `s.strip()` contains nothing that `s` does not. */
  lemma StripContains(s: string, q: string)
    requires Contains(Strip(s), q)
    ensures Contains(s, q)
  {
    var l := LStrip(s);
    var r := RStrip(l);
    assert r == Strip(s);
    Halves(l, |r|);
    ContainsInLeft(r, l[|r|..], q);
    Halves(s, |s| - |l|);
    ContainsInRight(s[..|s| - |l|], l, q);
  }

  /** `strip()` only removes characters: any character of the result is in the input. */
  lemma StripKeepsChar(s: string, c: char)
    requires c in Strip(s)
    ensures c in s
  {
    var r, m := Strip(s), LStrip(s);
    var k :| 0 <= k < |r| && r[k] == c;
    assert r == m[..|r|];
    assert m == s[|s| - |m|..];
    assert r[k] == m[k] == s[|s| - |m| + k];
  }
}
