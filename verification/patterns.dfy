/**
 * The three regular expressions of StreamToExpander.write, each written out
 * as a matcher for its exact pattern with Python `re` semantics: `re.sub`
 * scans left to right and resumes after each match, `re.search` reports the
 * leftmost match, and `\s` is Unicode whitespace.
 */
module Patterns {
  import opened Wrappers
  import opened PyStr
  import opened Headings

  const Esc: char := '\U{1B}'

  /** Length of the run of whitespace at the start of `s` (what a greedy `\s*` takes). */
  function Spaces(s: string): (n: nat)
    ensures n <= |s|
    ensures forall i :: 0 <= i < n ==> IsSpace(s[i])
    ensures n < |s| ==> !IsSpace(s[n])
    decreases |s|
  {
    if |s| > 0 && IsSpace(s[0]) then 1 + Spaces(s[1..]) else 0
  }

  // ------------------------------------------- \x1B\[[0-9;]*[mK] (SGR and EL)

  predicate IsParam(c: char) { '0' <= c <= '9' || c == ';' }

  /** Length of the run of `[0-9;]` at the start of `s`. */
  function ParamRun(s: string): (n: nat)
    ensures n <= |s|
    ensures forall i :: 0 <= i < n ==> IsParam(s[i])
    ensures n < |s| ==> !IsParam(s[n])
    decreases |s|
  {
    if |s| > 0 && IsParam(s[0]) then 1 + ParamRun(s[1..]) else 0
  }

  /** Length of the escape sequence `\x1B\[[0-9;]*[mK]` that `s` starts with, if any.
      The greedy parameter run cannot give back a character, since no digit or `;` is `m` or `K`. */
  function AnsiAt(s: string): (n: Option<nat>)
    ensures n.Some? ==>
      && 3 <= n.value <= |s| && s[0] == Esc && s[1] == '['
      && (s[n.value - 1] == 'm' || s[n.value - 1] == 'K')
      && forall i :: 2 <= i < n.value - 1 ==> IsParam(s[i])
  {
    if |s| >= 2 && s[0] == Esc && s[1] == '[' then
      var n := 2 + ParamRun(s[2..]);
      if n < |s| && (s[n] == 'm' || s[n] == 'K') then Some(n + 1) else None
    else None
  }

  /** `re.sub(r'\x1B\[[0-9;]*[mK]', '', s)` */
  function StripAnsi(s: string): (r: string)
    ensures |r| <= |s|
    ensures Esc !in s ==> r == s
    decreases |s|
  {
    if s == [] then []
    else match AnsiAt(s)
      case Some(n) =>
        assert s == s[..n] + s[n..];
        StripAnsi(s[n..])
      case None =>
        assert s == [s[0]] + s[1..];
        [s[0]] + StripAnsi(s[1..])
  }

  /** Text without an escape character passes through unchanged, and the
      rest of the input is cleaned on its own. */
  lemma StripAnsiKeepsPlain(x: string, y: string)
    requires Esc !in x
    ensures StripAnsi(x + y) == x + StripAnsi(y)
  {
    var s := x + y;
    assert forall i :: 0 <= i < |x| ==> s[i] == x[i] && x[i] in x;
    StripAnsiKeepsPrefix(s, |x|);
    assert s[..|x|] == x && s[|x|..] == y;
  }

  /** A prefix without ESC passes through unchanged and the rest is cleaned on its own. */
  lemma {:induction false} StripAnsiKeepsPrefix(s: string, k: nat)
    requires k <= |s| && forall i :: 0 <= i < k ==> s[i] != Esc
    ensures StripAnsi(s) == s[..k] + StripAnsi(s[k..])
    decreases k
  {
    if k == 0 {
      assert s[..0] == [] && s[0..] == s;
    } else {
      StripAnsiKeeps(s);
      StripAnsiKeepsPrefix(s[1..], k - 1);
      SliceShift(s, k);
      AppendAssoc([s[0]], s[1..][..k - 1], StripAnsi(s[k..]));
    }
  }

  lemma SliceShift(s: string, k: nat)
    requires 0 < k <= |s|
    ensures s[1..][k - 1..] == s[k..]
    ensures [s[0]] + s[1..][..k - 1] == s[..k]
  {
  }

  lemma AppendAssoc(a: string, b: string, c: string)
    ensures a + (b + c) == a + b + c
  {
  }

  /** An SGR or EL sequence `ESC [ params final` is removed whole. */
  lemma StripAnsiDropsSequence(params: string, final: char, y: string)
    requires forall c <- params :: IsParam(c)
    requires final == 'm' || final == 'K'
    ensures StripAnsi([Esc, '['] + params + [final] + y) == StripAnsi(y)
  {
    var s := [Esc, '['] + params + [final] + y;
    assert s[2..] == params + ([final] + y);
    ParamRunOf(params, [final] + y);
    assert s[2 + |params|] == final;
    assert s[|params| + 3..] == y;
  }

  lemma {:induction false} ParamRunOf(params: string, rest: string)
    requires forall c <- params :: IsParam(c)
    requires rest == [] || !IsParam(rest[0])
    ensures ParamRun(params + rest) == |params|
    decreases |params|
  {
    if params != [] {
      assert (params + rest)[1..] == params[1..] + rest;
      assert params[0] in params;
      ParamRunOf(params[1..], rest);
    } else {
      assert params + rest == rest;
    }
  }

  /** One pass is not always enough: a sequence hidden inside another comes out whole. */
  lemma StripAnsiNotIdempotent()
    ensures StripAnsi([Esc, '[', Esc, '[', 'm', 'm']) == [Esc, '[', 'm']
    ensures StripAnsi([Esc, '[', 'm']) == []
  {
    ExampleLiterals();
    StripAnsiBrokenStart([Esc, '[', Esc, '[', 'm', 'm']);
    StripAnsiPlainHead(['[', Esc, '[', 'm', 'm']);
    StripAnsiInner();
    StripAnsiDropsSequence([], 'm', []);
  }

  /** The sequence identities the two examples need, kept apart from the cleaning function. */
  lemma ExampleLiterals()
    ensures [Esc, '[', Esc, '[', 'm', 'm'][1..] == ['[', Esc, '[', 'm', 'm']
    ensures ['[', Esc, '[', 'm', 'm'][1..] == [Esc, '[', 'm', 'm']
    ensures [Esc] + (['['] + ['m']) == [Esc, '[', 'm']
    ensures [Esc, '['] + [] + ['m'] + [] == [Esc, '[', 'm']
    ensures [Esc, '['] + [] + ['m'] + ['m'] == [Esc, '[', 'm', 'm']
    ensures ['m'][1..] == [] && ['m'] + [] == ['m']
  {
  }

  /** Where no sequence starts, the first character is kept. */
  lemma StripAnsiKeeps(s: string)
    requires s != [] && AnsiAt(s).None?
    ensures StripAnsi(s) == [s[0]] + StripAnsi(s[1..])
  {
  }

  /** A first character other than ESC starts no sequence and is kept. */
  lemma StripAnsiPlainHead(s: string)
    requires s != [] && s[0] != Esc
    ensures StripAnsi(s) == [s[0]] + StripAnsi(s[1..])
  {
  }

  /** `ESC [` followed by a character that neither continues nor ends a sequence: the ESC is kept. */
  lemma StripAnsiBrokenStart(s: string)
    requires |s| >= 3 && s[0] == Esc && s[1] == '['
    requires !IsParam(s[2]) && s[2] != 'm' && s[2] != 'K'
    ensures StripAnsi(s) == [Esc] + StripAnsi(s[1..])
  {
    DropHead(s, 2);
    assert ParamRun(s[2..]) == 0;
    StripAnsiKeeps(s);
  }

  lemma DropHead(s: string, k: nat)
    requires k < |s|
    ensures s[k..][0] == s[k]
  {
  }

  lemma StripAnsiInner()
    ensures StripAnsi([Esc, '[', 'm', 'm']) == ['m']
  {
    ExampleLiterals();
    StripAnsiDropsSequence([], 'm', ['m']);
    StripAnsiPlainHead(['m']);
  }

  // ------------------------------------------------ case-insensitive "task"

  /** `re.IGNORECASE` for the literal `task`: besides the ASCII cases, `s` also
      matches U+017F LATIN SMALL LETTER LONG S and `k` matches U+212A KELVIN SIGN. */
  predicate IsTaskWord(w: string) {
    |w| == 4
    && (w[0] == 't' || w[0] == 'T')
    && (w[1] == 'a' || w[1] == 'A')
    && (w[2] == 's' || w[2] == 'S' || w[2] == '\U{17F}')
    && (w[3] == 'k' || w[3] == 'K' || w[3] == '\U{212A}')
  }

  /** The lazy `(.*?)"`: the offset of the first `"` in `s`, provided no newline comes before it. */
  function QuoteEnd(s: string): (k: Option<nat>)
    ensures k.Some? ==>
      && k.value < |s| && s[k.value] == '"'
      && forall i :: 0 <= i < k.value ==> s[i] != '"' && s[i] != '\n'
    ensures k.None? ==> forall i :: 0 <= i < |s| && s[i] == '"' ==> exists j :: 0 <= j < i && s[j] == '\n'
    decreases |s|
  {
    if s == [] || s[0] == '\n' then None
    else if s[0] == '"' then Some(0)
    else match QuoteEnd(s[1..])
      case Some(k) => Some(k + 1)
      case None =>
        assert forall i :: 1 <= i < |s| ==> s[i] == s[1..][i - 1];
        None
  }

  /** The group of `"task"\s*:\s*"(.*?)"` matched at the start of `s`, if it matches there. */
  function JsonTaskAt(s: string): (v: Option<string>)
    ensures v.Some? ==> '"' !in v.value && '\n' !in v.value
  {
    if |s| >= 6 && s[0] == '"' && IsTaskWord(s[1..5]) && s[5] == '"' then JsonAfterWord(s[6..])
    else None
  }

  /** `\s*:\s*"(.*?)"`, the rest of the JSON pattern after `"task"`. */
  function JsonAfterWord(t: string): (v: Option<string>)
    ensures v.Some? ==> '"' !in v.value && '\n' !in v.value
  {
    var a := Spaces(t);
    if a < |t| && t[a] == ':' then JsonAfterColon(t[a + 1..]) else None
  }

  /** `\s*"(.*?)"`, the JSON pattern after its colon. */
  function JsonAfterColon(u: string): (v: Option<string>)
    ensures v.Some? ==> '"' !in v.value && '\n' !in v.value
  {
    var b := Spaces(u);
    if b < |u| && u[b] == '"' then
      match QuoteEnd(u[b + 1..])
      case Some(k) => Some(u[b + 1..][..k])
      case None => None
    else None
  }

  /** Length of the `[^\n]*` run at the start of `s`. */
  function LineLength(s: string): (n: nat)
    ensures n <= |s| && '\n' !in s[..n]
    ensures n < |s| ==> s[n] == '\n'
    decreases |s|
  {
    if |s| > 0 && s[0] != '\n' then
      assert s[..1 + LineLength(s[1..])] == [s[0]] + s[1..][..LineLength(s[1..])];
      1 + LineLength(s[1..])
    else 0
  }

  /** The group of `task\s*:\s*([^\n]*)` matched at the start of `s`, if it matches there.
      The `\s*` after the colon may run over line breaks; the group itself stops at one. */
  function LineTaskAt(s: string): (v: Option<string>)
    ensures v.Some? ==> '\n' !in v.value
  {
    if |s| >= 4 && IsTaskWord(s[..4]) then LineAfterWord(s[4..]) else None
  }

  /** `\s*:\s*([^\n]*)`, the rest of the line pattern after `task`. */
  function LineAfterWord(t: string): (v: Option<string>)
    ensures v.Some? ==> '\n' !in v.value
  {
    var a := Spaces(t);
    if a < |t| && t[a] == ':' then Some(LineValue(t[a + 1..])) else None
  }

  /** `\s*([^\n]*)`: the group, after the whitespace that follows the colon. */
  function LineValue(u: string): (v: string)
    ensures '\n' !in v
  {
    var b := Spaces(u);
    u[b..][..LineLength(u[b..])]
  }

  /** `re.search` for a pattern anchored by `at`: the match at the leftmost position from `i` on. */
  function Search(at: string -> Option<string>, s: string, i: nat): (v: Option<string>)
    requires i <= |s|
    ensures v.None? <==> forall j :: i <= j <= |s| ==> at(s[j..]).None?
    ensures v.Some? ==>
      exists j :: i <= j <= |s| && at(s[j..]) == v && forall l :: i <= l < j ==> at(s[l..]).None?
    decreases |s| - i
  {
    if at(s[i..]).Some? then at(s[i..])
    else if i == |s| then None
    else Search(at, s, i + 1)
  }

  /** The task named in a chunk: the JSON form wins; otherwise the `task:` line, stripped. */
  function TaskValue(s: string): (v: Option<string>)
    ensures v.Some? ==> '\n' !in v.value
    ensures v.Some? <==> Search(JsonTaskAt, s, 0).Some? || Search(LineTaskAt, s, 0).Some?
    ensures Search(JsonTaskAt, s, 0).Some? ==> v == Search(JsonTaskAt, s, 0)
    ensures Search(JsonTaskAt, s, 0).None? && Search(LineTaskAt, s, 0).Some? ==>
      v == Some(Strip(Search(LineTaskAt, s, 0).value))
  {
    match Search(JsonTaskAt, s, 0)
    case Some(j) => Some(j)
    case None =>
      match Search(LineTaskAt, s, 0)
      case Some(l) =>
        assert '\n' !in Strip(l) by { if '\n' in Strip(l) { StripKeepsChar(l, '\n'); } }
        Some(Strip(l))
      case None => None
  }

  // ------------------------------------------------ what the task patterns capture

  /** A greedy `\s*` takes exactly a whitespace run that is followed by non-whitespace. */
  lemma {:induction false} SpacesOf(ws: string, rest: string)
    requires forall c <- ws :: IsSpace(c)
    requires rest == [] || !IsSpace(rest[0])
    ensures Spaces(ws + rest) == |ws|
    decreases |ws|
  {
    if ws != [] {
      assert ws[0] in ws;
      assert (ws + rest)[1..] == ws[1..] + rest;
      SpacesOf(ws[1..], rest);
    } else {
      assert ws + rest == rest;
    }
  }

  /** The lazy `(.*?)"` stops at the first quote, so it captures a quote- and newline-free `v`. */
  lemma {:induction false} QuoteEndOf(v: string, rest: string)
    requires '"' !in v && '\n' !in v
    ensures QuoteEnd(v + ['"'] + rest) == Some(|v|)
    decreases |v|
  {
    if v != [] {
      assert v[0] in v;
      assert (v + ['"'] + rest)[1..] == v[1..] + ['"'] + rest;
      QuoteEndOf(v[1..], rest);
    } else {
      assert v + ['"'] + rest == ['"'] + rest;
    }
  }

  /** `[^\n]*` takes exactly a newline-free `v` that ends the input or a line. */
  lemma {:induction false} LineLengthOf(v: string, rest: string)
    requires '\n' !in v
    requires rest == [] || rest[0] == '\n'
    ensures LineLength(v + rest) == |v|
    decreases |v|
  {
    if v != [] {
      assert v[0] in v;
      assert (v + rest)[1..] == v[1..] + rest;
      LineLengthOf(v[1..], rest);
    } else {
      assert v + rest == rest;
    }
  }

  lemma DropLeft(x: string, y: string)
    ensures (x + y)[|x|..] == y && (x + y)[..|x|] == x
  {
  }

  /** A whitespace run then `rest`: the greedy `\s*` stops exactly at `rest`. */
  lemma AfterSpaces(ws: string, rest: string)
    requires forall c <- ws :: IsSpace(c)
    requires rest == [] || !IsSpace(rest[0])
    ensures Spaces(ws + rest) == |ws| && (ws + rest)[|ws|..] == rest
  {
    SpacesOf(ws, rest);
  }

  /** After the word, whitespace and a colon lead to the part after the colon. */
  lemma AfterWordStep(ws: string, rest: string)
    requires forall c <- ws :: IsSpace(c)
    requires rest != [] && rest[0] == ':'
    ensures JsonAfterWord(ws + rest) == JsonAfterColon(rest[1..])
    ensures LineAfterWord(ws + rest) == Some(LineValue(rest[1..]))
  {
    AfterSpaces(ws, rest);
    assert (ws + rest)[|ws|] == rest[0];
    assert (ws + rest)[|ws| + 1..] == rest[1..];
  }

  /** After the colon, whitespace and a quoted value give the value. */
  lemma AfterColonJson(ws: string, v: string, y: string)
    requires forall c <- ws :: IsSpace(c)
    requires '"' !in v && '\n' !in v
    ensures JsonAfterColon(ws + (['"'] + (v + ['"'] + y))) == Some(v)
  {
    var q := ['"'] + (v + ['"'] + y);
    AfterSpaces(ws, q);
    assert (ws + q)[|ws|] == '"';
    assert (ws + q)[|ws| + 1..] == v + ['"'] + y;
    QuoteEndOf(v, y);
    DropLeft(v, ['"'] + y);
    assert v + ['"'] + y == v + (['"'] + y);
  }

  /** After the colon, whitespace and the value that starts the rest of a line give the value. */
  lemma LineValueOf(ws: string, v: string, y: string)
    requires forall c <- ws :: IsSpace(c)
    requires '\n' !in v
    requires (v != [] && !IsSpace(v[0])) || v + y == []
    requires y == [] || y[0] == '\n'
    ensures LineValue(ws + (v + y)) == v
  {
    assert v + y == [] || (v + y)[0] == v[0];
    AfterSpaces(ws, v + y);
    LineLengthOf(v, y);
    DropLeft(v, y);
  }

  /** The pieces of a JSON task field, regrouped to the right. */
  lemma JsonShape(w: string, ws1: string, ws2: string, v: string, y: string)
    ensures "\"" + w + "\"" + ws1 + ":" + ws2 + "\"" + v + "\"" + y
         == ("\"" + w + "\"") + (ws1 + ([':'] + (ws2 + (['"'] + (v + ['"'] + y)))))
  {
  }

  /** Any `"task"` field in any letter case, with any whitespace around its colon, matches
      there, and its group is the quoted value. */
  lemma JsonTaskMatches(w: string, ws1: string, ws2: string, v: string, y: string)
    requires IsTaskWord(w)
    requires forall c <- ws1 :: IsSpace(c)
    requires forall c <- ws2 :: IsSpace(c)
    requires '"' !in v && '\n' !in v
    ensures JsonTaskAt("\"" + w + "\"" + ws1 + ":" + ws2 + "\"" + v + "\"" + y) == Some(v)
  {
    var head := "\"" + w + "\"";
    var r1 := [':'] + (ws2 + (['"'] + (v + ['"'] + y)));
    JsonShape(w, ws1, ws2, v, y);
    JsonHead(head, w, ws1 + r1);
    AfterWordStep(ws1, r1);
    assert r1[1..] == ws2 + (['"'] + (v + ['"'] + y));
    AfterColonJson(ws2, v, y);
  }

  lemma JsonHead(head: string, w: string, t: string)
    requires head == "\"" + w + "\"" && IsTaskWord(w)
    ensures JsonTaskAt(head + t) == JsonAfterWord(t)
  {
    DropLeft(head, t);
    assert (head + t)[1..5] == w;
  }

  /** The pieces of a `task:` line, regrouped to the right. */
  lemma LineShape(w: string, ws1: string, ws2: string, v: string, y: string)
    ensures w + ws1 + ":" + ws2 + v + y == w + (ws1 + ([':'] + (ws2 + (v + y))))
  {
  }

  /** `task` in any letter case, with any whitespace (line breaks included) around its colon,
      matches there, and its group is the rest of the line the value starts on. */
  lemma LineTaskMatches(w: string, ws1: string, ws2: string, v: string, y: string)
    requires IsTaskWord(w)
    requires forall c <- ws1 :: IsSpace(c)
    requires forall c <- ws2 :: IsSpace(c)
    requires '\n' !in v
    requires (v != [] && !IsSpace(v[0])) || v + y == []
    requires y == [] || y[0] == '\n'
    ensures LineTaskAt(w + ws1 + ":" + ws2 + v + y) == Some(v)
  {
    var r1 := [':'] + (ws2 + (v + y));
    LineShape(w, ws1, ws2, v, y);
    DropLeft(w, ws1 + r1);
    AfterWordStep(ws1, r1);
    assert r1[1..] == ws2 + (v + y);
    LineValueOf(ws2, v, y);
  }

  /** `re.search` reports the match at the first position where the pattern matches. */
  lemma SearchFinds(at: string -> Option<string>, s: string, j: nat, v: string)
    requires j <= |s| && at(s[j..]) == Some(v)
    requires forall l :: 0 <= l < j ==> at(s[l..]).None?
    ensures Search(at, s, 0) == Some(v)
  {
    assert at(s[j..]).Some?;
    assert Search(at, s, 0).Some?;
    var j' :| 0 <= j' <= |s| && at(s[j'..]) == Search(at, s, 0) && forall l :: 0 <= l < j' ==> at(s[l..]).None?;
    assert !(j < j');
    assert !(j' < j);
  }

  /** A JSON task field at offset `j`, with none before it, names the task. */
  lemma TaskValueFromJson(s: string, j: nat, v: string)
    requires j <= |s| && JsonTaskAt(s[j..]) == Some(v)
    requires forall l :: 0 <= l < j ==> JsonTaskAt(s[l..]).None?
    ensures TaskValue(s) == Some(v)
  {
    SearchFinds(JsonTaskAt, s, j, v);
  }

  /** Without a JSON task field, the first `task:` line names the task, stripped. */
  lemma TaskValueFromLine(s: string, j: nat, v: string)
    requires forall l :: 0 <= l <= |s| ==> JsonTaskAt(s[l..]).None?
    requires j <= |s| && LineTaskAt(s[j..]) == Some(v)
    requires forall l :: 0 <= l < j ==> LineTaskAt(s[l..]).None?
    ensures TaskValue(s) == Some(Strip(v))
  {
    SearchFinds(LineTaskAt, s, j, v);
  }

  /** A chunk with no JSON task field whose first `task:` match is the line `w: v` after `x`
      names the stripped value. */
  lemma TaskLineNamed(x: string, w: string, ws1: string, ws2: string, v: string, y: string)
    requires IsTaskWord(w)
    requires forall c <- ws1 :: IsSpace(c)
    requires forall c <- ws2 :: IsSpace(c)
    requires '\n' !in v
    requires (v != [] && !IsSpace(v[0])) || v + y == []
    requires y == [] || y[0] == '\n'
    requires var s := x + (w + ws1 + ":" + ws2 + v + y);
      && (forall l :: 0 <= l <= |s| ==> JsonTaskAt(s[l..]).None?)
      && (forall l :: 0 <= l < |x| ==> LineTaskAt(s[l..]).None?)
    ensures TaskValue(x + (w + ws1 + ":" + ws2 + v + y)) == Some(Strip(v))
  {
    var m := w + ws1 + ":" + ws2 + v + y;
    LineTaskMatches(w, ws1, ws2, v, y);
    DropLeft(x, m);
    TaskValueFromLine(x + m, |x|, v);
  }

  /** A chunk whose first JSON task field follows `x` names its quoted value. */
  lemma TaskJsonNamed(x: string, w: string, ws1: string, ws2: string, v: string, y: string)
    requires IsTaskWord(w)
    requires forall c <- ws1 :: IsSpace(c)
    requires forall c <- ws2 :: IsSpace(c)
    requires '"' !in v && '\n' !in v
    requires var s := x + ("\"" + w + "\"" + ws1 + ":" + ws2 + "\"" + v + "\"" + y);
      forall l :: 0 <= l < |x| ==> JsonTaskAt(s[l..]).None?
    ensures TaskValue(x + ("\"" + w + "\"" + ws1 + ":" + ws2 + "\"" + v + "\"" + y)) == Some(v)
  {
    var m := "\"" + w + "\"" + ws1 + ":" + ws2 + "\"" + v + "\"" + y;
    JsonTaskMatches(w, ws1, ws2, v, y);
    DropLeft(x, m);
    TaskValueFromJson(x + m, |x|, v);
  }

  // ---------------- [\s]*참고 맥락:.*?위 맥락을 … 정리하시오.\n  (re.DOTALL)

  /** The literal part of the pattern's tail; the `.` after it is unescaped and matches any character. */
  const EchoTail: string := "위 맥락을 기반으로 수행 문제를 사실적으로 기술하고, 원인 분석 및 해결방안을 구분하여 정리하시오"

  predicate TailAt(s: string) {
    StartsWith(s, EchoTail) && |s| >= |EchoTail| + 2 && s[|EchoTail| + 1] == '\n'
  }

  /** The lazy DOTALL `.*?` before the tail: the offset of the first place the tail matches. */
  function TailOffset(s: string): (k: Option<nat>)
    ensures k.Some? ==> k.value + |EchoTail| + 2 <= |s| && TailAt(s[k.value..])
    ensures k.Some? ==> forall l :: 0 <= l < k.value ==> !TailAt(s[l..])
    ensures k.None? ==> forall l :: 0 <= l <= |s| ==> !TailAt(s[l..])
    decreases |s|
  {
    if TailAt(s) then Some(0)
    else if s == [] then None
    else
      assert forall l :: 1 <= l <= |s| ==> s[l..] == s[1..][l - 1..];
      assert s[0..] == s;
      match TailOffset(s[1..])
      case Some(k) => Some(k + 1)
      case None => None
  }

  /** Length of a match of the echo pattern at the start of `s`, if any. The
      greedy `[\s]*` cannot give back a character, since the heading starts with a letter. */
  function EchoAt(s: string): (n: Option<nat>)
    ensures n.Some? ==> 0 < n.value <= |s| && Contains(s, ContextHeading)
  {
    var q := Spaces(s);
    if StartsWith(s[q..], ContextHeading) then
      var rest := s[q + |ContextHeading|..];
      match TailOffset(rest)
      case Some(k) =>
        assert Contains(s[q..], ContextHeading);
        assert s == s[..q] + s[q..];
        ContainsInRight(s[..q], s[q..], ContextHeading);
        Some(q + |ContextHeading| + k + |EchoTail| + 2)
      case None => None
    else None
  }

  /** `re.sub(pattern, "", s, flags=re.DOTALL)` for the echo pattern. */
  function RemoveEcho(s: string): (r: string)
    ensures |r| <= |s|
    decreases |s|
  {
    if s == [] then []
    else match EchoAt(s)
      case Some(n) => RemoveEcho(s[n..])
      case None => [s[0]] + RemoveEcho(s[1..])
  }

  /** Without the heading there is nothing for the echo pattern to remove. */
  lemma {:induction false} RemoveEchoWithoutHeading(s: string)
    requires !Contains(s, ContextHeading)
    ensures RemoveEcho(s) == s
    decreases |s|
  {
    if s != [] {
      assert EchoAt(s).None?;
      assert !Contains(s[1..], ContextHeading);
      RemoveEchoWithoutHeading(s[1..]);
      assert s == [s[0]] + s[1..];
    }
  }
}
