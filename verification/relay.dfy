/**
 * StreamToExpander: the progress relay that stands in for standard output
 * while the crew runs. Each write() cleans one chunk of the execution trace
 * (escape codes out, a toast for a named task, the prompt echo cut off, the
 * chain markers and agent roles colour-tagged), buffers it, and flushes the
 * buffer to the page when the raw chunk holds a line break. The page calls
 * (`st.toast`, `expander.markdown`) are recorded as ghost output sequences.
 */
module Relay {
  import opened Wrappers
  import opened PyStr
  import opened Patterns
  import opened GapCrew
  import opened Headings

  /** The rotating palette. */
  const Colors: seq<string> := ["red", "green", "blue", "orange", "violet", "gray"]

  const EnterMarker: string := "Entering new CrewAgentExecutor chain"
  const FinishedMarker: string := "Finished chain."

  /** The agent roles, in the order write() looks for them. */
  const Roles: seq<string> := [ProjectManagerRole, PerformanceRole, AchievementRole, EnvironmentRole, SolutionRole]

  /** `(i + 1) % len(colors)` */
  function Next(i: nat): (j: nat)
    ensures j < |Colors|
  {
    (i + 1) % |Colors|
  }

  /** `f":{color}[{text}]"`: Streamlit's coloured-text markup, which keeps the text whole
      between the colour's `:name[` and the closing `]`. */
  function Tag(color: string, text: string): (r: string)
    ensures |r| == |color| + |text| + 3
    ensures r[0] == ':' && r[|color| + 1] == '[' && r[|r| - 1] == ']'
    ensures Contains(r, text)
  {
    var open := ":" + color + "[";
    ContainsSelf(text);
    ContainsInRight(open, text, text);
    ContainsInLeft(open + text, "]", text);
    open + text + "]"
  }

  /** The markup in the `i`-th colour of the palette. */
  function Colored(i: nat, text: string): (r: string)
    requires i < |Colors|
    ensures Contains(r, text) && Contains(r, Colors[i])
  {
    TagHoldsColor(Colors[i], text);
    Tag(Colors[i], text)
  }

  lemma TagHoldsColor(color: string, text: string)
    ensures Contains(Tag(color, text), color)
  {
    var open := ":" + color;
    ContainsSelf(color);
    ContainsInRight(":", color, color);
    ContainsInLeft(open, "[" + text + "]", color);
    TagRegroup(color, text);
  }

  lemma TagRegroup(color: string, text: string)
    ensures Tag(color, text) == ":" + color + ("[" + text + "]")
  {
  }

  /** The two cuts of write(): keep what precedes the first client heading, strip, then keep
      what precedes the first context heading, strip. Neither heading survives. */
  function Truncate(s: string): (r: string)
    ensures !Contains(r, ClientHeading) && !Contains(r, ContextHeading)
  {
    CutsFree(s);
    Strip(Split(Strip(Split(s, ClientHeading)[0]), ContextHeading)[0])
  }

  lemma CutsFree(s: string)
    ensures var r := Strip(Split(Strip(Split(s, ClientHeading)[0]), ContextHeading)[0]);
      !Contains(r, ClientHeading) && !Contains(r, ContextHeading)
  {
    var h1 := Split(s, ClientHeading)[0];
    SplitHead(s, ClientHeading);
    var a := Strip(h1);
    if Contains(a, ClientHeading) {
      StripContains(h1, ClientHeading);
      assert false;
    }
    var h2 := Split(a, ContextHeading)[0];
    SplitHead(a, ContextHeading);
    if Contains(h2, ClientHeading) {
      PrefixContains(a, |h2|, ClientHeading);
      assert false;
    }
    if Contains(Strip(h2), ClientHeading) {
      StripContains(h2, ClientHeading);
      assert false;
    }
    if Contains(Strip(h2), ContextHeading) {
      StripContains(h2, ContextHeading);
      assert false;
    }
  }

  predicate NonEmpty(roles: seq<string>) {
    forall k :: 0 <= k < |roles| ==> roles[k] != []
  }

  lemma RolesNonEmpty()
    ensures NonEmpty(Roles)
  {
  }

  /** No two roles are the same string, so `current_agent` never already holds the role
      a block looks for and every block that finds its role advances the colour. */
  lemma RolesDistinct()
    ensures forall j, k :: 0 <= j < k < |Roles| ==> Roles[j] != Roles[k]
  {
    assert ProjectManagerRole[0] == '프' && PerformanceRole[0] == '수' && AchievementRole[0] == '성';
    assert EnvironmentRole[0] == '환' && SolutionRole[0] == '원';
  }

  /** A role is never among the roles checked before it, so the `current_agent != role` test
      always passes when the role is found. */
  lemma RoleFresh(k: nat)
    requires k < |Roles|
    ensures Roles[k] !in Roles[..k]
    ensures Roles[..k + 1] == Roles[..k] + [Roles[k]]
  {
    RolesDistinct();
  }

  /** The text after the role blocks, the colour index, and how many of the blocks advanced it. */
  datatype Tagged = Tagged(text: string, colorIndex: nat, advances: nat)

  /** The role blocks of write(): a role found in the text at its turn advances the colour once
      and has all its occurrences tagged with the new colour. */
  function TagRoles(text: string, i: nat, roles: seq<string>): (r: Tagged)
    requires i < |Colors|
    requires NonEmpty(roles)
    ensures r.colorIndex < |Colors| && r.advances <= |roles|
    ensures r.advances == 0 ==> r.text == text && r.colorIndex == i
    decreases |roles|
  {
    if roles == [] then Tagged(text, i, 0)
    else
      if Contains(text, roles[0]) then
        var r := TagRoles(Replace(text, roles[0], Colored(Next(i), roles[0])), Next(i), roles[1..]);
        Tagged(r.text, r.colorIndex, r.advances + 1)
      else TagRoles(text, i, roles[1..])
  }

  /** One role block, taken from the `k`-th role on, agrees with the remaining blocks. */
  lemma RoleStep(text: string, tagged: string, i: nat, j: nat, roles: seq<string>, k: nat)
    requires i < |Colors| && NonEmpty(roles) && k < |roles|
    requires Contains(text, roles[k]) ==> j == Next(i) && tagged == Replace(text, roles[k], Colored(j, roles[k]))
    requires !Contains(text, roles[k]) ==> j == i && tagged == text
    ensures NonEmpty(roles[k..]) && NonEmpty(roles[k + 1..])
    ensures TagRoles(text, i, roles[k..]).text == TagRoles(tagged, j, roles[k + 1..]).text
    ensures TagRoles(text, i, roles[k..]).colorIndex == TagRoles(tagged, j, roles[k + 1..]).colorIndex
  {
    assert roles[k..][0] == roles[k] && roles[k..][1..] == roles[k + 1..];
  }

  /** What one write() computes: the cleaned text, the new colour index, whether the
      entering marker advanced it, how many role blocks did, and the task it found. */
  datatype Chunk = Chunk(text: string, colorIndex: nat, entered: bool, roleAdvances: nat, task: Option<string>)

  /** The colour index after the entering-marker check. */
  function EnterIndex(i: nat, plain: string): (j: nat)
    requires i < |Colors|
    ensures j < |Colors|
    ensures j == Rotate(i, if Contains(plain, EnterMarker) then 1 else 0)
  {
    if Contains(plain, EnterMarker) then Next(i) else i
  }

  /** The entering marker tagged in the colour it moved to. */
  function MarkEnter(i: nat, plain: string): (r: string)
    requires i < |Colors|
    ensures Contains(plain, EnterMarker) ==> Contains(r, Colored(Next(i), EnterMarker))
    ensures !Contains(plain, EnterMarker) ==> r == plain
  {
    if Contains(plain, EnterMarker) then
      ReplaceHoldsRep(plain, EnterMarker, Colored(EnterIndex(i, plain), EnterMarker));
      Replace(plain, EnterMarker, Colored(EnterIndex(i, plain), EnterMarker))
    else plain
  }

  /** The finished marker tagged in the colour the role blocks left. */
  function MarkFinished(r: Tagged): (m: string)
    requires r.colorIndex < |Colors|
    ensures Contains(r.text, FinishedMarker) ==> Contains(m, Colored(r.colorIndex, FinishedMarker))
    ensures !Contains(r.text, FinishedMarker) ==> m == r.text
  {
    if Contains(r.text, FinishedMarker) then
      ReplaceHoldsRep(r.text, FinishedMarker, Colored(r.colorIndex, FinishedMarker));
      Replace(r.text, FinishedMarker, Colored(r.colorIndex, FinishedMarker))
    else r.text
  }

  /** The text the role blocks see: the entering marker tagged, the two cuts made and the
      prompt echo removed, which after the cuts changes nothing. */
  function Cut(i: nat, plain: string): (r: string)
    requires i < |Colors|
    ensures r == Truncate(MarkEnter(i, plain))
    ensures !Contains(r, ClientHeading) && !Contains(r, ContextHeading)
  {
    EchoAfterTruncate(MarkEnter(i, plain));
    RemoveEcho(Truncate(MarkEnter(i, plain)))
  }

  /** The role blocks as write() reaches them: after the entering marker, the two cuts and the
      echo removal. */
  function RoleStage(i: nat, plain: string): (r: Tagged)
    requires i < |Colors|
    ensures r.colorIndex < |Colors|
    ensures r.colorIndex == Rotate(i, (if Contains(plain, EnterMarker) then 1 else 0) + r.advances)
  {
    RolesNonEmpty();
    var cut := Cut(i, plain);
    var r := TagRoles(cut, EnterIndex(i, plain), Roles);
    TagRolesAdvance(cut, EnterIndex(i, plain), Roles);
    if Contains(plain, EnterMarker) then RotateNext(i, r.advances); r else r
  }

  function Clean(i: nat, data: string): (c: Chunk)
    requires i < |Colors|
    ensures c.colorIndex < |Colors|
    ensures c.entered == Contains(StripAnsi(data), EnterMarker)
    ensures c.task == TaskValue(StripAnsi(data))
    ensures c.colorIndex == Rotate(i, (if c.entered then 1 else 0) + c.roleAdvances)
  {
    var plain := StripAnsi(data);
    var roles := RoleStage(i, plain);
    Chunk(MarkFinished(roles), roles.colorIndex, Contains(plain, EnterMarker), roles.advances, TaskValue(plain))
  }

  /** The role blocks of a write advance the colour at most once per role present in the cut
      text, at least once when some role is present, and not at all, leaving the cut text as it
      is, when none is. */
  lemma RoleStageAdvances(i: nat, plain: string)
    requires i < |Colors|
    ensures var r, cut := RoleStage(i, plain), Cut(i, plain);
      && r.advances <= PresentCount(cut, Roles)
      && (PresentCount(cut, Roles) > 0 ==> r.advances >= 1)
      && (PresentCount(cut, Roles) == 0 ==> r.advances == 0 && r.text == cut)
  {
    RolesNonEmpty();
    var cut := Cut(i, plain);
    var j := EnterIndex(i, plain);
    assert RoleStage(i, plain) == TagRoles(cut, j, Roles);
    TagRolesCount(cut, j);
  }

  lemma TagRolesCount(text: string, j: nat)
    requires j < |Colors|
    ensures NonEmpty(Roles)
    ensures var r := TagRoles(text, j, Roles);
      && r.advances <= PresentCount(text, Roles)
      && (PresentCount(text, Roles) > 0 ==> r.advances >= 1)
      && (PresentCount(text, Roles) == 0 ==> r.advances == 0 && r.text == text)
  {
    RolesNonEmpty();
    RolesSeparated();
    TagRolesBound(text, j, Roles);
    if PresentCount(text, Roles) > 0 {
      TagRolesSomeAdvance(text, j, Roles);
    }
  }

  /** One write advances the colour once for the entering marker, when present, and then between
      one and the number of roles present in the cut text when some role is there, and not at all
      when none is. */
  lemma CleanAdvances(i: nat, data: string)
    requires i < |Colors|
    ensures var c, cut := Clean(i, data), Cut(i, StripAnsi(data));
      && c.colorIndex == Rotate(i, (if c.entered then 1 else 0) + c.roleAdvances)
      && c.roleAdvances <= PresentCount(cut, Roles)
      && (PresentCount(cut, Roles) > 0 ==> c.roleAdvances >= 1)
      && (PresentCount(cut, Roles) == 0 ==> c.roleAdvances == 0)
  {
    assert Clean(i, data).roleAdvances == RoleStage(i, StripAnsi(data)).advances;
    RoleStageAdvances(i, StripAnsi(data));
  }

  /** The finished marker, when it is still in the text the role blocks leave, comes out tagged in
      the colour the chunk ends on; otherwise the role blocks' text is the chunk's text. */
  lemma CleanTagsFinished(i: nat, data: string)
    requires i < |Colors|
    ensures var c, r := Clean(i, data), RoleStage(i, StripAnsi(data));
      && (Contains(r.text, FinishedMarker) ==> Contains(c.text, Colored(c.colorIndex, FinishedMarker)))
      && (!Contains(r.text, FinishedMarker) ==> c.text == r.text)
  {
    assert Clean(i, data).text == MarkFinished(RoleStage(i, StripAnsi(data)));
  }

  /** The toast a chunk raises: only a non-empty task value raises one. */
  function Toasts(task: Option<string>): (r: seq<string>)
    ensures |r| <= 1
    ensures r != [] <==> Truthy(task)
    ensures forall m <- r :: m == ":microscope: " + task.value
  {
    if task.Some? && task.value != [] then [":microscope: " + task.value] else []
  }

  class StreamToExpander {
    var buffer: seq<string>
    var colorIndex: nat
    /** What was shown with `st.toast`, oldest first. */
    ghost var toasts: seq<string>
    /** What was rendered with `expander.markdown`, oldest first. */
    ghost var markdowns: seq<string>

    ghost predicate Valid()
      reads this
    {
      colorIndex < |Colors|
    }

    constructor ()
      ensures Valid()
      ensures buffer == [] && colorIndex == 0 && toasts == [] && markdowns == []
    {
      buffer := [];
      colorIndex := 0;
      toasts := [];
      markdowns := [];
    }

    /** The `k`-th `if role in cleaned_data:` block of write(); `current` is `current_agent`, which
        only ever holds a role checked earlier in the same call. */
    method TagRole(text: string, k: nat, current: Option<string>) returns (tagged: string, agent: Option<string>)
      requires Valid() && k < |Roles|
      requires current.Some? ==> current.value in Roles[..k]
      modifies this`colorIndex
      ensures Valid()
      ensures buffer == old(buffer) && toasts == old(toasts) && markdowns == old(markdowns)
      ensures agent.Some? ==> agent.value in Roles[..k + 1]
      ensures Contains(text, Roles[k]) ==>
        && agent == Some(Roles[k])
        && colorIndex == (if current != Some(Roles[k]) then Next(old(colorIndex)) else old(colorIndex))
        && tagged == Replace(text, Roles[k], Colored(colorIndex, Roles[k]))
      ensures !Contains(text, Roles[k]) ==> agent == current && colorIndex == old(colorIndex) && tagged == text
      ensures TagRoles(text, old(colorIndex), Roles[k..]).text == TagRoles(tagged, colorIndex, Roles[k + 1..]).text
      ensures TagRoles(text, old(colorIndex), Roles[k..]).colorIndex == TagRoles(tagged, colorIndex, Roles[k + 1..]).colorIndex
    {
      RolesNonEmpty();
      RoleFresh(k);
      var role := Roles[k];
      tagged, agent := text, current;
      if Contains(text, role) {
        if current != Some(role) {
          agent := Some(role);
          colorIndex := Next(colorIndex);
        }
        tagged := Replace(text, role, Colored(colorIndex, role));
      }
      RoleStep(text, tagged, old(colorIndex), colorIndex, Roles, k);
    }

    /** The five role blocks of write(), with `current_agent` starting at None. */
    method TagAllRoles(text: string) returns (tagged: string)
      requires Valid()
      modifies this`colorIndex
      ensures Valid()
      ensures buffer == old(buffer) && toasts == old(toasts) && markdowns == old(markdowns)
      ensures var r := TagRoles(text, old(colorIndex), Roles);
        tagged == r.text && colorIndex == r.colorIndex
    {
      RolesNonEmpty();
      assert Roles[0..] == Roles;
      var current: Option<string> := None;
      tagged, current := TagRole(text, 0, current);
      tagged, current := TagRole(tagged, 1, current);
      tagged, current := TagRole(tagged, 2, current);
      tagged, current := TagRole(tagged, 3, current);
      tagged, current := TagRole(tagged, 4, current);
      assert Roles[5..] == [];
    }

    /** The cleaning part of write(data): escape codes, task search, markers, cuts and roles. */
    method CleanChunk(data: string) returns (cleaned: string, task: Option<string>)
      requires Valid()
      modifies this`colorIndex
      ensures Valid()
      ensures buffer == old(buffer) && toasts == old(toasts) && markdowns == old(markdowns)
      ensures var c := Clean(old(colorIndex), data);
        cleaned == c.text && colorIndex == c.colorIndex && task == c.task
    {
      ghost var i := colorIndex;
      cleaned := StripAnsi(data);
      ghost var plain := cleaned;
      task := TaskValue(cleaned);
      if Contains(cleaned, EnterMarker) {
        colorIndex := Next(colorIndex);
        cleaned := Replace(cleaned, EnterMarker, Colored(colorIndex, EnterMarker));
      }
      assert cleaned == MarkEnter(i, plain) && colorIndex == EnterIndex(i, plain);
      cleaned := Strip(Split(cleaned, ClientHeading)[0]);
      cleaned := Strip(Split(cleaned, ContextHeading)[0]);
      cleaned := RemoveEcho(cleaned);
      assert cleaned == Cut(i, plain);
      cleaned := TagAllRoles(cleaned);
      ghost var r := RoleStage(i, plain);
      assert cleaned == r.text && colorIndex == r.colorIndex;
      if Contains(cleaned, FinishedMarker) {
        cleaned := Replace(cleaned, FinishedMarker, Colored(colorIndex, FinishedMarker));
      }
      assert cleaned == MarkFinished(r);
    }

    /** The output part of write(data): the toast, then buffering and the flush on a raw line break. */
    method Emit(data: string, cleaned: string, task: Option<string>)
      modifies this`toasts, this`buffer, this`markdowns
      ensures colorIndex == old(colorIndex)
      ensures toasts == old(toasts) + Toasts(task)
      ensures '\n' in data ==> markdowns == old(markdowns) + [Join(old(buffer) + [cleaned], [])] && buffer == []
      ensures '\n' !in data ==> markdowns == old(markdowns) && buffer == old(buffer) + [cleaned]
    {
      if task.Some? && task.value != [] {
        toasts := toasts + [":microscope: " + task.value];
      }
      buffer := buffer + [cleaned];
      if '\n' in data {
        markdowns := markdowns + [Join(buffer, [])];
        buffer := [];
      }
    }

    /** write(data) */
    method Write(data: string)
      requires Valid()
      modifies this
      ensures Valid()
      ensures var c := Clean(old(colorIndex), data);
        && colorIndex == c.colorIndex
        && toasts == old(toasts) + Toasts(c.task)
        && ('\n' in data ==> markdowns == old(markdowns) + [Join(old(buffer) + [c.text], [])] && buffer == [])
        && ('\n' !in data ==> markdowns == old(markdowns) && buffer == old(buffer) + [c.text])
    {
      var cleaned, task := CleanChunk(data);
      Emit(data, cleaned, task);
    }
  }

  // ------------------------------------------------------------------ colour rotation

  /** The colour index after `n` advances from `i`. */
  function Rotate(i: nat, n: nat): (j: nat)
    requires i < |Colors|
    ensures j < |Colors|
  {
    if n == 0 then i else Next(Rotate(i, n - 1))
  }

  /** `n` advances land on `(i + n) % len(colors)`: the palette is cycled, never run off. */
  lemma {:induction false} RotateIsMod(i: nat, n: nat)
    requires i < |Colors|
    ensures Rotate(i, n) == (i + n) % |Colors|
  {
    if n > 0 {
      RotateIsMod(i, n - 1);
      ModStep(i + n - 1);
    }
  }

  /** One more step on a residue is the residue of one more. */
  lemma ModStep(a: nat)
    ensures (a % |Colors| + 1) % |Colors| == (a + 1) % |Colors|
  {
    var q, r := a / 6, a % 6;
    assert a == 6 * q + r && 0 <= r < 6;
    if r < 5 {
      assert a + 1 == 6 * q + (r + 1);
    } else {
      assert a + 1 == 6 * (q + 1);
    }
  }

  /** Six advances bring the colour back where it was. */
  lemma RotateCycle(i: nat)
    requires i < |Colors|
    ensures Rotate(i, |Colors|) == i
  {
    RotateIsMod(i, |Colors|);
  }

  lemma {:induction false} RotateNext(i: nat, n: nat)
    requires i < |Colors|
    ensures Rotate(Next(i), n) == Rotate(i, n + 1)
  {
    if n > 0 {
      RotateNext(i, n - 1);
    }
  }

  /** The role blocks move the colour by exactly the number of blocks that advanced it. */
  lemma {:induction false} TagRolesAdvance(text: string, i: nat, roles: seq<string>)
    requires i < |Colors| && NonEmpty(roles)
    ensures TagRoles(text, i, roles).colorIndex == Rotate(i, TagRoles(text, i, roles).advances)
    decreases |roles|
  {
    if roles != [] {
      assert NonEmpty(roles[1..]);
      if Contains(text, roles[0]) {
        var t := Replace(text, roles[0], Colored(Next(i), roles[0]));
        TagRolesAdvance(t, Next(i), roles[1..]);
        RotateNext(i, TagRoles(t, Next(i), roles[1..]).advances);
      } else {
        TagRolesAdvance(text, i, roles[1..]);
      }
    }
  }

  // ------------------------------------------------------------------ tagging creates no role

  /** A string no tag can manufacture: none of the markup characters and longer than every
      colour name. */
  predicate Markupless(q: string) {
    && ':' !in q && '[' !in q && ']' !in q
    && forall k :: 0 <= k < |Colors| ==> |Colors[k]| < |q|
  }

  /** The roles are tag-safe, and no role occurs inside one that is tagged before it. */
  predicate Separated(roles: seq<string>) {
    && NonEmpty(roles)
    && (forall k :: 0 <= k < |roles| ==> Markupless(roles[k]))
    && (forall j, k :: 0 <= j < k < |roles| ==> !Contains(roles[j], roles[k]))
  }

  lemma ShorterAbsent(s: string, p: string)
    requires |s| < |p|
    ensures !Contains(s, p)
  {
    if Contains(s, p) {
      ContainsLength(s, p);
      assert false;
    }
  }

  lemma MarkuplessRoles()
    ensures forall k :: 0 <= k < |Roles| ==> Markupless(Roles[k])
  {
    MarkuplessRole(ProjectManagerRole);
    MarkuplessRole(PerformanceRole);
    MarkuplessRole(AchievementRole);
    MarkuplessRole(EnvironmentRole);
    MarkuplessRole(SolutionRole);
  }

  /** A name of seven or more characters without `:`, `[` or `]` is markup-free. */
  lemma MarkuplessRole(q: string)
    requires |q| >= 7 && ':' !in q && '[' !in q && ']' !in q
    ensures Markupless(q)
  {
    assert forall k :: 0 <= k < |Colors| ==> |Colors[k]| <= 6;
  }

  /** No role occurs inside one looked for before it. */
  lemma RolePairApart(j: nat, k: nat)
    requires j < k < |Roles|
    ensures !Contains(Roles[j], Roles[k])
  {
    var r0, r1, r2, r3, r4 := Roles[0], Roles[1], Roles[2], Roles[3], Roles[4];
    if k == 4 {
      assert |r0| == 8 && |r1| == 9 && |r2| == 9 && |r3| == 9 && |r4| == 13;
      ShorterAbsent(Roles[j], r4);
    } else {
      assert r0[0] == '프' && r1[0] == '수' && r2[0] == '성' && r3[0] == '환';
      assert '수' !in r0 && '성' !in r0 && '성' !in r1 && '환' !in r0 && '환' !in r1 && '환' !in r2;
      AbsentByFirstChar(Roles[j], Roles[k]);
    }
  }

  lemma RolesSeparated()
    ensures Separated(Roles)
  {
    RolesNonEmpty();
    MarkuplessRoles();
    forall j, k | 0 <= j < k < |Roles| ensures !Contains(Roles[j], Roles[k]) {
      RolePairApart(j, k);
    }
  }

  /** An occurrence of a markupless `q` in a string joined with a tag of `p` lies in one piece. */
  lemma {:induction false} JoinTagContains(parts: seq<string>, color: string, p: string, q: string)
    requires ':' !in q && '[' !in q && ']' !in q && |color| < |q| && !Contains(p, q)
    requires Contains(Join(parts, Tag(color, p)), q)
    ensures exists k :: 0 <= k < |parts| && Contains(parts[k], q)
    decreases |parts|
  {
    if |parts| == 0 {
      ContainsLength(Join(parts, Tag(color, p)), q);
      assert false;
    } else if |parts| == 1 {
      assert Contains(parts[0], q);
    } else {
      var j := Join(parts[1..], Tag(color, p));
      var y := color + "[" + p + "]" + j;
      assert Join(parts, Tag(color, p)) == parts[0] + [':'] + y;
      ContainsAcross(parts[0], ':', y, q);
      if !Contains(parts[0], q) {
        assert y == color + ['['] + (p + [']'] + j);
        ContainsAcross(color, '[', p + [']'] + j, q);
        ShorterAbsent(color, q);
        ContainsAcross(p, ']', j, q);
        JoinTagContains(parts[1..], color, p, q);
        var k :| 0 <= k < |parts[1..]| && Contains(parts[1..][k], q);
        assert parts[1..][k] == parts[k + 1];
      }
    }
  }

  /** Tagging the occurrences of `p` creates no occurrence of a markupless `q` that `p` lacks. */
  lemma ReplaceTagContains(s: string, p: string, color: string, q: string)
    requires p != [] && ':' !in q && '[' !in q && ']' !in q && |color| < |q| && !Contains(p, q)
    requires Contains(Replace(s, p, Tag(color, p)), q)
    ensures Contains(s, q)
  {
    JoinTagContains(Split(s, p), color, p, q);
    var k :| 0 <= k < |Split(s, p)| && Contains(Split(s, p)[k], q);
    SplitPieceContains(s, p, k, q);
  }

  /** How many of `roles` occur in `text`. */
  function PresentCount(text: string, roles: seq<string>): (n: nat)
    ensures n <= |roles|
  {
    if roles == [] then 0
    else (if Contains(text, roles[0]) then 1 else 0) + PresentCount(text, roles[1..])
  }

  lemma {:induction false} PresentCountMono(a: string, b: string, roles: seq<string>)
    requires forall k :: 0 <= k < |roles| && Contains(a, roles[k]) ==> Contains(b, roles[k])
    ensures PresentCount(a, roles) <= PresentCount(b, roles)
    decreases |roles|
  {
    if roles != [] {
      assert Contains(a, roles[0]) ==> Contains(b, roles[0]);
      forall k | 0 <= k < |roles[1..]| && Contains(a, roles[1..][k])
        ensures Contains(b, roles[1..][k])
      {
        assert roles[1..][k] == roles[k + 1];
      }
      PresentCountMono(a, b, roles[1..]);
    }
  }

  /** The role blocks advance the colour at most once per role present in their input: tagging
      one role never brings a later one into existence. */
  lemma {:induction false} TagRolesBound(text: string, i: nat, roles: seq<string>)
    requires i < |Colors| && Separated(roles)
    ensures TagRoles(text, i, roles).advances <= PresentCount(text, roles)
    decreases |roles|
  {
    if roles != [] {
      var rest := roles[1..];
      assert Separated(rest) by {
        forall j, k | 0 <= j < k < |rest| ensures !Contains(rest[j], rest[k]) {
          assert rest[j] == roles[j + 1] && rest[k] == roles[k + 1];
        }
        forall k | 0 <= k < |rest| ensures Markupless(rest[k]) && rest[k] != [] {
          assert rest[k] == roles[k + 1];
        }
      }
      if Contains(text, roles[0]) {
        var color := Colors[Next(i)];
        var t := Replace(text, roles[0], Tag(color, roles[0]));
        TagRolesBound(t, Next(i), rest);
        forall k | 0 <= k < |rest| && Contains(t, rest[k]) ensures Contains(text, rest[k]) {
          assert rest[k] == roles[k + 1];
          assert Markupless(roles[k + 1]);
          assert color in Colors;
          ReplaceTagContains(text, roles[0], color, rest[k]);
        }
        PresentCountMono(t, text, rest);
      } else {
        TagRolesBound(text, i, rest);
      }
    }
  }

  /** The first role present always advances the colour, so some role present means some
      advance. */
  lemma {:induction false} TagRolesSomeAdvance(text: string, i: nat, roles: seq<string>)
    requires i < |Colors| && NonEmpty(roles) && PresentCount(text, roles) > 0
    ensures TagRoles(text, i, roles).advances >= 1
    decreases |roles|
  {
    if !Contains(text, roles[0]) {
      assert NonEmpty(roles[1..]) by {
        forall k | 0 <= k < |roles[1..]| ensures roles[1..][k] != [] {
          assert roles[1..][k] == roles[k + 1];
        }
      }
      TagRolesSomeAdvance(text, i, roles[1..]);
    }
  }

  /** A chunk that names no role leaves the role blocks without effect. */
  lemma NoRoleNoAdvance(text: string, i: nat)
    requires i < |Colors| && PresentCount(text, Roles) == 0
    ensures TagRoles(text, i, Roles) == Tagged(text, i, 0)
  {
    RolesSeparated();
    TagRolesBound(text, i, Roles);
  }

  /** The rest of the solution role once its leading "원" is taken by the achievement role. */
  const SolutionTail: string := "인 및 해결방안 연구원"

  /** The achievement role immediately followed by the solution role, sharing its "원". */
  const OverlapText: string := AchievementRole + SolutionTail

  /** Which roles the overlap text holds: the achievement and the solution role. */
  lemma OverlapRoles()
    ensures !Contains(OverlapText, ProjectManagerRole) && !Contains(OverlapText, PerformanceRole)
    ensures Contains(OverlapText, AchievementRole) && !Contains(OverlapText, EnvironmentRole)
    ensures Contains(OverlapText, SolutionRole)
  {
    OverlapLiterals();
    AbsentByFirstChar(OverlapText, ProjectManagerRole);
    AbsentByFirstChar(OverlapText, PerformanceRole);
    AbsentByFirstChar(OverlapText, EnvironmentRole);
    ContainsSelf(AchievementRole);
    ContainsInLeft(AchievementRole, SolutionTail, AchievementRole);
    ContainsSelf(SolutionRole);
    ContainsInRight("성과 분석 연구", SolutionRole, SolutionRole);
  }

  /** The overlap text spelt out: the two roles share the "원" between them. */
  lemma OverlapLiterals()
    ensures OverlapText == AchievementRole + SolutionTail
    ensures OverlapText == "성과 분석 연구" + SolutionRole
    ensures ProjectManagerRole[0] !in OverlapText && PerformanceRole[0] !in OverlapText
    ensures EnvironmentRole[0] !in OverlapText
    ensures ProjectManagerRole != [] && PerformanceRole != [] && EnvironmentRole != []
  {
    assert SolutionRole == ['원'] + SolutionTail;
    assert AchievementRole == "성과 분석 연구" + ['원'];
  }

  lemma OverlapPresent()
    ensures PresentCount(OverlapText, Roles) == 2
  {
    OverlapRoles();
    var r0, r1, r2, r3, r4 := Roles, Roles[1..], Roles[2..], Roles[3..], Roles[4..];
    assert r1 == r0[1..] && r2 == r1[1..] && r3 == r2[1..] && r4 == r3[1..] && r4[1..] == [];
    assert r0[0] == ProjectManagerRole && r1[0] == PerformanceRole && r2[0] == AchievementRole;
    assert r3[0] == EnvironmentRole && r4[0] == SolutionRole;
    assert PresentCount(OverlapText, r4) == 1;
    assert PresentCount(OverlapText, r3) == 1;
    assert PresentCount(OverlapText, r2) == 2;
    assert PresentCount(OverlapText, r1) == 2;
  }

  /** Replacing a pattern that opens the text and does not recur in the rest. */
  lemma ReplaceAtStart(p: string, u: string, rep: string)
    requires p != [] && !Contains(u, p)
    ensures Replace(p + u, p, rep) == rep + u
  {
    SplitAbsent(u, p);
    assert (p + u)[..|p|] == p && (p + u)[|p|..] == u;
    assert StartsWith(p + u, p);
    assert Split(p + u, p) == [[], u];
    assert Join([[], u], rep) == [] + rep + u;
  }

  /** A tag followed by `u` holds no `q` whose first character occurs in neither. */
  lemma TagFreeByFirstChar(color: string, p: string, u: string, q: string)
    requires q != [] && q[0] !in color && q[0] !in p && q[0] !in u && q[0] !in ":[]"
    ensures !Contains(Tag(color, p) + u, q)
  {
    AbsentByFirstChar(Tag(color, p) + u, q);
  }

  /** A tag followed by `u` holds no markup-free `q` longer than the colour and `p` that `u` lacks. */
  lemma TagFreeByLength(color: string, p: string, u: string, q: string)
    requires '[' !in q && ']' !in q && |color| + 1 < |q| && |p| < |q| && !Contains(u, q)
    ensures !Contains(Tag(color, p) + u, q)
  {
    var x := ":" + color + "[" + p;
    assert Tag(color, p) + u == x + [']'] + u;
    assert x == ":" + color + ['['] + p;
    ShorterAbsent(p, q);
    ShorterAbsent(":" + color, q);
    if Contains(Tag(color, p) + u, q) {
      ContainsAcross(x, ']', u, q);
      ContainsAcross(":" + color, '[', p, q);
      assert false;
    }
  }

  /** Tagging the achievement role of the overlap text. */
  lemma OverlapTagged(color: string)
    ensures Replace(OverlapText, AchievementRole, Tag(color, AchievementRole)) == Tag(color, AchievementRole) + SolutionTail
  {
    AbsentByFirstChar(SolutionTail, AchievementRole);
    ReplaceAtStart(AchievementRole, SolutionTail, Tag(color, AchievementRole));
  }

  /** That tagging leaves no environment role ... */
  lemma OverlapNoEnvironment(color: string)
    requires EnvironmentRole[0] !in color
    ensures !Contains(Tag(color, AchievementRole) + SolutionTail, EnvironmentRole)
  {
    TagFreeByFirstChar(color, AchievementRole, SolutionTail, EnvironmentRole);
  }

  /** ... and no solution role. */
  lemma OverlapNoSolution(color: string)
    requires |color| <= 6
    ensures !Contains(Tag(color, AchievementRole) + SolutionTail, SolutionRole)
  {
    SolutionLengths();
    ShorterAbsent(SolutionTail, SolutionRole);
    TagFreeByLength(color, AchievementRole, SolutionTail, SolutionRole);
  }

  lemma SolutionLengths()
    ensures |SolutionRole| == 13 && |SolutionTail| == 12 && |AchievementRole| == 9
    ensures '[' !in SolutionRole && ']' !in SolutionRole
  {
  }

  /** A role block whose role is absent changes nothing. */
  lemma TagRolesSkip(text: string, i: nat, roles: seq<string>)
    requires i < |Colors| && NonEmpty(roles) && roles != [] && !Contains(text, roles[0])
    ensures NonEmpty(roles[1..])
    ensures TagRoles(text, i, roles) == TagRoles(text, i, roles[1..])
  {
  }

  /** A role block whose role is present advances and tags it. */
  lemma TagRolesHit(text: string, i: nat, roles: seq<string>, tagged: string)
    requires i < |Colors| && NonEmpty(roles) && roles != [] && Contains(text, roles[0])
    requires tagged == Replace(text, roles[0], Colored(Next(i), roles[0]))
    ensures NonEmpty(roles[1..])
    ensures var r := TagRoles(tagged, Next(i), roles[1..]);
      TagRoles(text, i, roles) == Tagged(r.text, r.colorIndex, r.advances + 1)
  {
  }

  /** The bound is not reached in general: every researcher role ends in "원", the solution role
      starts with it, and tagging the achievement role splits a following solution role, which
      then neither advances the colour nor gets tagged. */
  lemma RoleOverlap(i: nat)
    requires i < |Colors|
    ensures TagRoles(OverlapText, i, Roles) == Tagged(Colored(Next(i), AchievementRole) + SolutionTail, Next(i), 1)
  {
    RolesNonEmpty();
    var t := OverlapText;
    var color := Colors[Next(i)];
    ColorNames(Next(i));
    var t2 := Tag(color, AchievementRole) + SolutionTail;
    OverlapTagged(color);
    OverlapNoEnvironment(color);
    OverlapNoSolution(color);
    OverlapRoles();

    RolesEnds();
    TagRolesSkipAt(t, i, Roles, 0);
    TagRolesSkipAt(t, i, Roles, 1);
    TagRolesHitAt(t, i, Roles, 2, t2);
    TagRolesSkipAt(t2, Next(i), Roles, 3);
    TagRolesSkipAt(t2, Next(i), Roles, 4);
  }

  /** Colour names are short ASCII words. */
  lemma ColorNames(k: nat)
    requires k < |Colors|
    ensures |Colors[k]| <= 6 && EnvironmentRole[0] !in Colors[k]
  {
    assert EnvironmentRole[0] == '환';
  }

  lemma RolesEnds()
    ensures Roles[0..] == Roles && Roles[5..] == []
    ensures Roles[0] == ProjectManagerRole && Roles[1] == PerformanceRole && Roles[2] == AchievementRole
    ensures Roles[3] == EnvironmentRole && Roles[4] == SolutionRole
  {
  }

  /** The `k`-th role block, when its role is absent, changes nothing. */
  lemma TagRolesSkipAt(text: string, i: nat, roles: seq<string>, k: nat)
    requires i < |Colors| && NonEmpty(roles) && k < |roles| && !Contains(text, roles[k])
    ensures NonEmpty(roles[k..]) && NonEmpty(roles[k + 1..])
    ensures TagRoles(text, i, roles[k..]) == TagRoles(text, i, roles[k + 1..])
  {
    SliceStep(roles, k);
    TagRolesSkip(text, i, roles[k..]);
  }

  /** The `k`-th role block, when its role is present, advances and tags it. */
  lemma TagRolesHitAt(text: string, i: nat, roles: seq<string>, k: nat, tagged: string)
    requires i < |Colors| && NonEmpty(roles) && k < |roles| && Contains(text, roles[k])
    requires tagged == Replace(text, roles[k], Colored(Next(i), roles[k]))
    ensures NonEmpty(roles[k..]) && NonEmpty(roles[k + 1..])
    ensures var r := TagRoles(tagged, Next(i), roles[k + 1..]);
      TagRoles(text, i, roles[k..]) == Tagged(r.text, r.colorIndex, r.advances + 1)
  {
    SliceStep(roles, k);
    TagRolesHit(text, i, roles[k..], tagged);
  }

  lemma SliceStep(roles: seq<string>, k: nat)
    requires k < |roles|
    ensures roles[k..] != [] && roles[k..][0] == roles[k] && roles[k..][1..] == roles[k + 1..]
  {
  }

  // ------------------------------------------------------------------ six advances in one write

  /** The five roles back to back, the last one checked first. */
  const RolesBackwards: string := SolutionRole + EnvironmentRole + AchievementRole + PerformanceRole + ProjectManagerRole

  /** A chunk holding the entering marker and every role. */
  const SixText: string := EnterMarker + RolesBackwards

  /** One write can advance the colour six times, once for the entering marker and once per role,
      and so end on the colour it started from. */
  lemma SixAdvances(i: nat)
    requires i < |Colors|
    ensures Clean(i, SixText).entered && Clean(i, SixText).roleAdvances == 5
    ensures Clean(i, SixText).colorIndex == i
  {
    var e := Colored(Next(i), EnterMarker);
    SixPlain();
    SixCut(i);
    EnterTagMarkup(i);
    RolesHit(i, e);
    CleanOfPlain(i, SixText);
    RotateCycle(i);
  }

  lemma EnterTagMarkup(i: nat)
    requires i < |Colors|
    ensures forall c <- Colored(Next(i), EnterMarker) :: MarkupChar(c)
  {
    MarkerPlain();
    ColorsPlain(Next(i));
    TagMarkup(Colors[Next(i)], EnterMarker);
  }

  /** On a chunk with no escape that holds the entering marker, the role blocks start on the next
      colour from the first cut. */
  lemma CleanOfPlain(i: nat, data: string)
    requires i < |Colors|
    requires Esc !in data && Contains(data, EnterMarker)
    ensures NonEmpty(Roles)
    ensures Clean(i, data).entered
    ensures Clean(i, data).roleAdvances == TagRoles(Cut(i, data), Next(i), Roles).advances
  {
    RolesNonEmpty();
  }

  /** The chunk carries no escape sequence and holds the entering marker. */
  lemma SixPlain()
    ensures Esc !in SixText && Contains(SixText, EnterMarker)
  {
    MarkerPlain();
    RolesBackwardsKorean();
    PlainThenKorean(EnterMarker, RolesBackwards);
  }

  /** Plain text followed by Korean text carries no escape and holds its plain part. */
  lemma PlainThenKorean(x: string, y: string)
    requires forall c <- x :: PlainChar(c)
    requires KoreanText(y)
    ensures Esc !in x + y && Contains(x + y, x)
  {
    assert Esc !in x + y;
    ContainsSelf(x);
    ContainsInLeft(x, y, x);
  }

  /** The first cut of the chunk tags the entering marker and keeps the roles. */
  lemma SixCut(i: nat)
    requires i < |Colors|
    ensures Cut(i, SixText) == Colored(Next(i), EnterMarker) + RolesBackwards
  {
    var e := Colored(Next(i), EnterMarker);
    MarkerPlain();
    ColorsPlain(Next(i));
    TagMarkup(Colors[Next(i)], EnterMarker);
    RolesBackwardsKorean();
    assert EnterMarker[0] == 'E';
    AbsentByFirstChar(RolesBackwards, EnterMarker);
    ReplaceAtStart(EnterMarker, RolesBackwards, e);
    ContainsSelf(EnterMarker);
    ContainsInLeft(EnterMarker, RolesBackwards, EnterMarker);
    assert MarkEnter(i, SixText) == e + RolesBackwards;
    CutKeeps(e, RolesBackwards);
  }

  /** Space and ASCII letters: the characters of the colour names and of the entering marker. */
  predicate PlainChar(c: char) {
    c == ' ' || 'a' <= c <= 'z' || 'A' <= c <= 'Z'
  }

  /** What a tag of plain text is made of: plain characters and the markup `:`, `[` and `]`. */
  predicate MarkupChar(c: char) {
    PlainChar(c) || c == ':' || c == '[' || c == ']'
  }

  /** A Hangul syllable. */
  predicate Hangul(c: char) {
    '\U{AC00}' <= c <= '\U{D7A3}'
  }

  /** Space and Hangul syllables: the characters of the role names. */
  predicate KoreanText(s: string) {
    forall c <- s :: c == ' ' || Hangul(c)
  }

  lemma MarkerPlain()
    ensures forall c <- EnterMarker :: PlainChar(c)
  {
  }

  lemma ColorsPlain(k: nat)
    requires k < |Colors|
    ensures forall c <- Colors[k] :: PlainChar(c)
  {
  }

  lemma TagMarkup(color: string, text: string)
    requires forall c <- color :: PlainChar(c)
    requires forall c <- text :: PlainChar(c)
    ensures forall c <- Tag(color, text) :: MarkupChar(c)
  {
    assert Tag(color, text) == ":" + color + "[" + text + "]";
  }

  /** A tag lacks a character that is in neither the colour, the text nor the markup. */
  lemma TagLacks(color: string, text: string, c: char)
    requires c !in color && c !in text && c != ':' && c != '[' && c != ']'
    ensures c !in Tag(color, text)
  {
    assert Tag(color, text) == ":" + color + "[" + text + "]";
  }

  lemma RolesBackwardsKorean()
    ensures KoreanText(RolesBackwards)
    ensures RolesBackwards != [] && RolesBackwards[|RolesBackwards| - 1] == '저'
    ensures ContextHeading[0] !in RolesBackwards
  {
    KoreanRole(ProjectManagerRole);
    KoreanRole(PerformanceRole);
    KoreanRole(AchievementRole);
    KoreanRole(EnvironmentRole);
    KoreanRole(SolutionRole);
    assert ContextHeading[0] == '참';
    assert '참' !in ProjectManagerRole && '참' !in PerformanceRole && '참' !in AchievementRole;
    assert '참' !in EnvironmentRole && '참' !in SolutionRole;
    assert ProjectManagerRole[7] == '저';
  }

  lemma KoreanRole(r: string)
    requires r in {ProjectManagerRole, PerformanceRole, AchievementRole, EnvironmentRole, SolutionRole}
    ensures KoreanText(r)
  {
  }

  /** The first character of each of the first four roles occurs in no other role. */
  lemma InitialsApart()
    ensures ProjectManagerRole[0] == '프' && PerformanceRole[0] == '수'
    ensures AchievementRole[0] == '성' && EnvironmentRole[0] == '환' && SolutionRole[0] == '원'
    ensures '프' !in SolutionRole && '프' !in EnvironmentRole && '프' !in AchievementRole && '프' !in PerformanceRole
    ensures '수' !in SolutionRole && '수' !in EnvironmentRole && '수' !in AchievementRole && '수' !in ProjectManagerRole
    ensures '성' !in SolutionRole && '성' !in EnvironmentRole && '성' !in PerformanceRole && '성' !in ProjectManagerRole
    ensures '환' !in SolutionRole && '환' !in AchievementRole && '환' !in PerformanceRole && '환' !in ProjectManagerRole
  {
    InitialAbsent(ProjectManagerRole, ['수', '성', '환']);
    InitialAbsent(PerformanceRole, ['프', '성', '환']);
    InitialAbsent(AchievementRole, ['프', '수', '환']);
    InitialAbsent(EnvironmentRole, ['프', '수', '성']);
    InitialAbsent(SolutionRole, ['프', '수', '성', '환']);
  }

  /** None of `cs` occurs in the role `r`. */
  lemma InitialAbsent(r: string, cs: seq<char>)
    requires r in {ProjectManagerRole, PerformanceRole, AchievementRole, EnvironmentRole, SolutionRole}
    requires cs in {['수', '성', '환'], ['프', '성', '환'], ['프', '수', '환'], ['프', '수', '성'], ['프', '수', '성', '환']}
    requires r == ProjectManagerRole <==> cs == ['수', '성', '환']
    requires r == PerformanceRole <==> cs == ['프', '성', '환']
    requires r == AchievementRole <==> cs == ['프', '수', '환']
    requires r == EnvironmentRole <==> cs == ['프', '수', '성']
    ensures forall c <- cs :: c !in r
  {
  }

  /** The role blocks on a tagged marker followed by the five roles advance five times. */
  lemma RolesHit(i: nat, e: string)
    requires i < |Colors|
    requires forall c <- e :: MarkupChar(c)
    ensures NonEmpty(Roles)
    ensures TagRoles(e + RolesBackwards, Next(i), Roles).advances == 5
  {
    RolesNonEmpty();
    RolesEnds();
    var c0 := Next(i);
    var c1 := Next(c0);
    var c2 := Next(c1);
    var c3 := Next(c2);
    var c4 := Next(c3);
    var x1 := e + SolutionRole + EnvironmentRole + AchievementRole;
    var x0 := x1 + PerformanceRole;
    var x2 := e + SolutionRole + EnvironmentRole;
    var x3 := e + SolutionRole;
    var y0: string := [];
    var y1 := Colored(c1, ProjectManagerRole) + y0;
    var y2 := Colored(c2, PerformanceRole) + y1;
    var y3 := Colored(c3, AchievementRole) + y2;
    var y4 := Colored(c4, EnvironmentRole) + y3;
    InitialsBefore(e);
    TailsAbsent(c1, c2, c3, c4);
    RolesBackwardsRegroup(e);
    RoleHit(x0, y0, c0, 0);
    AppendAssoc(x0, Colored(c1, ProjectManagerRole), y0);
    RoleHit(x1, y1, c1, 1);
    AppendAssoc(x1, Colored(c2, PerformanceRole), y1);
    RoleHit(x2, y2, c2, 2);
    AppendAssoc(x2, Colored(c3, AchievementRole), y2);
    RoleHit(x3, y3, c3, 3);
    AppendAssoc(x3, Colored(c4, EnvironmentRole), y3);
    RoleHit(e, y4, c4, 4);
  }

  /** No role occurs in the tags of the blocks run before it. */
  lemma TailsAbsent(c1: nat, c2: nat, c3: nat, c4: nat)
    requires c1 < |Colors| && c2 < |Colors| && c3 < |Colors| && c4 < |Colors|
    ensures var y1 := Colored(c1, ProjectManagerRole) + [];
      var y2 := Colored(c2, PerformanceRole) + y1;
      var y3 := Colored(c3, AchievementRole) + y2;
      && !Contains([], ProjectManagerRole) && !Contains(y1, PerformanceRole) && !Contains(y2, AchievementRole)
      && !Contains(y3, EnvironmentRole) && !Contains(Colored(c4, EnvironmentRole) + y3, SolutionRole)
  {
    var y1 := Colored(c1, ProjectManagerRole) + [];
    var y2 := Colored(c2, PerformanceRole) + y1;
    var y3 := Colored(c3, AchievementRole) + y2;
    RolesEnds();
    InitialsAfter(c1, c2, c3);
    ShorterAbsent([], ProjectManagerRole);
    AbsentByFirstChar(y1, PerformanceRole);
    AbsentByFirstChar(y2, AchievementRole);
    AbsentByFirstChar(y3, EnvironmentRole);
    SolutionAbsent(c1, c2, c3, c4);
  }

  /** Each role's first character is missing from the text before it. */
  lemma InitialsBefore(e: string)
    requires forall c <- e :: MarkupChar(c)
    ensures Roles[0][0] !in e + SolutionRole + EnvironmentRole + AchievementRole + PerformanceRole
    ensures Roles[1][0] !in e + SolutionRole + EnvironmentRole + AchievementRole
    ensures Roles[2][0] !in e + SolutionRole + EnvironmentRole
    ensures Roles[3][0] !in e + SolutionRole
    ensures Roles[4][0] !in e
  {
    InitialsApart();
    RolesEnds();
    assert '프' !in e && '수' !in e && '성' !in e && '환' !in e && '원' !in e;
  }

  /** ... and from the tags after it. */
  lemma InitialsAfter(c1: nat, c2: nat, c3: nat)
    requires c1 < |Colors| && c2 < |Colors| && c3 < |Colors|
    ensures Roles[1][0] !in Colored(c1, ProjectManagerRole) + []
    ensures Roles[2][0] !in Colored(c2, PerformanceRole) + (Colored(c1, ProjectManagerRole) + [])
    ensures Roles[3][0] !in Colored(c3, AchievementRole) + (Colored(c2, PerformanceRole) + (Colored(c1, ProjectManagerRole) + []))
  {
    InitialsApart();
    RolesEnds();
    ColorsPlain(c1);
    ColorsPlain(c2);
    ColorsPlain(c3);
    TagLacks(Colors[c1], ProjectManagerRole, '수');
    TagLacks(Colors[c1], ProjectManagerRole, '성');
    TagLacks(Colors[c2], PerformanceRole, '성');
    TagLacks(Colors[c1], ProjectManagerRole, '환');
    TagLacks(Colors[c2], PerformanceRole, '환');
    TagLacks(Colors[c3], AchievementRole, '환');
  }

  /** The marker and roles, grouped as the last role with all before it. */
  lemma RolesBackwardsRegroup(e: string)
    ensures e + RolesBackwards
         == e + SolutionRole + EnvironmentRole + AchievementRole + PerformanceRole + ProjectManagerRole + []
  {
  }

  /** The tags of the four other blocks hold no solution role. */
  lemma SolutionAbsent(c1: nat, c2: nat, c3: nat, c4: nat)
    requires c1 < |Colors| && c2 < |Colors| && c3 < |Colors| && c4 < |Colors|
    ensures !Contains(Colored(c4, EnvironmentRole) + (Colored(c3, AchievementRole) + (Colored(c2, PerformanceRole)
      + (Colored(c1, ProjectManagerRole) + []))), SolutionRole)
  {
    ColorNames(c1);
    ColorNames(c2);
    ColorNames(c3);
    ColorNames(c4);
    assert |ProjectManagerRole| == 8 && |PerformanceRole| == 9 && |AchievementRole| == 9;
    assert |EnvironmentRole| == 9 && |SolutionRole| == 13;
    assert '[' !in SolutionRole && ']' !in SolutionRole;
    var s := SolutionRole;
    var u1 := Colored(c1, ProjectManagerRole) + [];
    var u2 := Colored(c2, PerformanceRole) + u1;
    var u3 := Colored(c3, AchievementRole) + u2;
    ShorterAbsent([], s);
    TagFreeByLength(Colors[c1], ProjectManagerRole, [], s);
    TagFreeByLength(Colors[c2], PerformanceRole, u1, s);
    TagFreeByLength(Colors[c3], AchievementRole, u2, s);
    TagFreeByLength(Colors[c4], EnvironmentRole, u3, s);
  }

  /** The `k`-th block finds its role between `x`, which lacks the role's first character, and
      `y`, which lacks the role, and tags that one occurrence. */
  lemma RoleHit(x: string, y: string, i: nat, k: nat)
    requires i < |Colors| && k < |Roles| && Roles[k] != []
    requires Roles[k][0] !in x && !Contains(y, Roles[k])
    ensures NonEmpty(Roles)
    ensures var r := TagRoles(x + Colored(Next(i), Roles[k]) + y, Next(i), Roles[k + 1..]);
      TagRoles(x + Roles[k] + y, i, Roles[k..]) == Tagged(r.text, r.colorIndex, r.advances + 1)
  {
    RolesNonEmpty();
    var p := Roles[k];
    ReplaceSingle(x, p, y, Colored(Next(i), p));
    ContainsSelf(p);
    ContainsInRight(x, p, p);
    ContainsInLeft(x + p, y, p);
    TagRolesHitAt(x + p + y, i, Roles, k, x + Colored(Next(i), p) + y);
  }

  /** A tagged marker followed by role names survives the cuts. */
  lemma CutKeeps(e: string, u: string)
    requires forall c <- e :: MarkupChar(c)
    requires KoreanText(u) && ContextHeading[0] !in u
    requires e != [] && u != [] && !IsSpace(u[|u| - 1]) && !IsSpace(e[0])
    ensures Truncate(e + u) == e + u
  {
    var s := e + u;
    assert ClientHeading[0] == '>';
    assert ClientHeading[0] !in e && ClientHeading[0] !in u && ContextHeading[0] !in e;
    assert s[0] == e[0] && s[|s| - 1] == u[|u| - 1];
    AbsentByFirstChar(s, ClientHeading);
    SplitAbsent(s, ClientHeading);
    Stripped(s);
    AbsentByFirstChar(s, ContextHeading);
    SplitAbsent(s, ContextHeading);
  }

  // ------------------------------------------------------------------ the two cuts

  /** The echo pattern starts at the context heading, which the cuts have already removed, so
      the `re.sub` after them never changes the text. */
  lemma EchoAfterTruncate(s: string)
    ensures RemoveEcho(Truncate(s)) == Truncate(s)
  {
    RemoveEchoWithoutHeading(Truncate(s));
  }

  /** Cutting twice is cutting once. */
  lemma TruncateIdempotent(s: string)
    ensures Truncate(Truncate(s)) == Truncate(s)
  {
    var t := Truncate(s);
    SplitHead(t, ClientHeading);
    StripIdempotent(Split(Strip(Split(s, ClientHeading)[0]), ContextHeading)[0]);
    SplitHead(t, ContextHeading);
  }

  /** What survives the cuts lies in the text before the first client heading. */
  lemma TruncateWithinHead(s: string, q: string)
    requires Contains(Truncate(s), q)
    ensures Contains(Split(s, ClientHeading)[0], q)
  {
    var h1 := Split(s, ClientHeading)[0];
    var a := Strip(h1);
    var h2 := Split(a, ContextHeading)[0];
    StripContains(h2, q);
    SplitHead(a, ContextHeading);
    PrefixContains(a, |h2|, q);
    StripContains(h1, q);
  }

  /** The cuts only remove text. */
  lemma TruncateWithin(s: string, q: string)
    requires Contains(Truncate(s), q)
    ensures Contains(s, q)
  {
    TruncateWithinHead(s, q);
    SplitHead(s, ClientHeading);
    PrefixContains(s, |Split(s, ClientHeading)[0]|, q);
  }

  /** Nothing after the first client heading survives the cuts. */
  lemma TruncateBeforeClient(a: string, b: string, q: string)
    requires Contains(Truncate(a + ClientHeading + b), q)
    ensures Contains(a, q)
  {
    var s := a + ClientHeading + b;
    var h1 := Split(s, ClientHeading)[0];
    TruncateWithinHead(s, q);
    SplitHeadWithin(a, ClientHeading, b);
    PrefixContains(a, |h1|, q);
  }

  lemma AnalysisContextShape(x: string, client: string, interview: string, other: Option<string>, y: string)
    ensures exists rest :: x + AnalysisContext(client, interview, other) + y == x + ("\n" + Indent16) + ClientHeading + rest
  {
    var l2 := ContextLine(Indent16, "> 인터뷰 분석 결과: ", interview);
    var l3 := ContextLine(Indent16, "> 기타 파일 분석 결과: ", OtherFilesText(other));
    Regroup(x, "\n", Indent16, ClientHeading, " ", client, l2, l3, AnalysisContextEnd, y);
  }

  /** The concatenation identity behind the shape of a context block. */
  lemma Regroup(x: string, n: string, ind: string, ch: string, sp: string, v: string,
                l2: string, l3: string, e: string, y: string)
    ensures x + ((((n + ind) + (ch + sp)) + v) + l2 + l3 + e) + y
         == x + (n + ind) + ch + (sp + v + (l2 + l3 + e) + y)
  {
  }

  /** A researcher's prompt echoed in the transcript is cut at the client line of its context: of
      the context block only the line break and indentation before that line can survive. */
  lemma AnalysisEchoCut(x: string, client: string, interview: string, other: Option<string>, y: string, q: string)
    requires Contains(Truncate(x + AnalysisContext(client, interview, other) + y), q)
    ensures Contains(x + "\n" + Indent16, q)
  {
    AnalysisContextShape(x, client, interview, other, y);
    var rest :| x + AnalysisContext(client, interview, other) + y == x + ("\n" + Indent16) + ClientHeading + rest;
    assert x + ("\n" + Indent16) == x + "\n" + Indent16;
    TruncateBeforeClient(x + "\n" + Indent16, rest, q);
  }

  // ------------------------------------------------------------------ the relay and the crew

  /** The roles the relay colours are exactly the roles of the crew's agents, in the order crew()
      lists the agents. */
  lemma RolesAreCrewRoles(c: GapAnalysisCrew)
    ensures |BuildCrew(c).agents| == |Roles|
    ensures forall k :: 0 <= k < |Roles| ==> BuildCrew(c).agents[k].role == Roles[k]
  {
    RolesEnds();
    var r := BuildCrew(c);
    forall k | 0 <= k < 5 ensures r.agents[k].role == Roles[k] {
      if k > 0 {
        assert r.agents[k] == r.tasks[k - 1].agent == StageAgent(StageOrder[k - 1]);
      }
    }
  }
}
