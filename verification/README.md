# Gap-analysis crew and progress relay, in Dafny

This project models the core of `src/components/researcher.py` of the instructional-design
gap-analysis assistant. The core has two parts.

**The crew (`GapAnalysisCrew`).** It is modelled as pure values in module `GapCrew`:
- The constructor picks each of the four analysis guides. A truthy override wins; otherwise the prompt module's default user template is used.
- Every task carries a context block built from the client, interview and other-files analyses. A missing other-files analysis becomes "없음".
- `crew()` fixes five tasks in the order performance, achievement, environment, solution, compile:
  - the compile task runs on the project-manager agent with the manager model;
  - the other four run on researcher agents with the general model.
- `analyze()` hands the crew to the execution engine and turns any failure into a bare `Exception`, with no message and no explicit cause.

**The progress relay (`StreamToExpander`).** It is modelled as a class in module `Relay`. Its fields are the buffer and the colour index. The page output is recorded as two ghost sequences: the toasts and the rendered markdown blocks. `Write` is proved against `Clean`, a function that says what one `write()` computes:
- strip SGR/EL escape sequences;
- find a task name;
- tag the "Entering" marker;
- cut the prompt echo at the two context headings;
- tag the five role names and "Finished chain.".

The three regular expressions of `write()` are hand-written matchers with Python `re` semantics (module `Patterns`). Python's `str` operations used by the core are in module `PyStr`:
- `split`, `join` and `replace`, with `replace` as `rep.join(s.split(pat))`;
- `in`;
- `strip`, with Unicode whitespace.

Facts the proofs establish:
- The colour index always stays in `0..5`.
- One write advances the colour once for the entering marker and once per role block that found its role.
- Tagging a role never creates a later role, so the advances are bounded by the roles present in the cut text.
- They can fall short of that number. The researcher roles end in "원" and the solution role starts with it, so tagging "성과 분석 연구원" inside "성과 분석 연구원인 및 해결방안 연구원" destroys the solution role's occurrence (`Relay.RoleOverlap`).
- The echo-removal `re.sub` never changes the text after the two cuts.
- Of an echoed research prompt, only the text before its client line survives the cuts.
- One escape-stripping pass is not idempotent: `ESC [ ESC [ m m` becomes `ESC [ m`.

Two consequences of the code as written:
- The re-analysis page (`pages/02_분석하기.py`, lines 250-262) builds the crew with an instruction. `crew()` passes that instruction to no task, so every prompt's closing line renders `None` (see Findings).
- One might expect an entering line to change the colour from the previous flush. One write can advance it up to six times, once for the marker and once per role. A chunk holding the marker and all five roles, last role first, does exactly that and ends on the colour it started from (`Relay.SixAdvances`).

## Model

| member | source | states |
|---|---|---|
| PyStr.Split | src/components/researcher.py:394-395 | `s.split(sep)` always yields at least one piece |
| PyStr.ContainsSelf | src/components/researcher.py:390 | every string is `in` itself |
| PyStr.ContainsLength | src/components/researcher.py:390 | a string found `in` another is no longer than it |
| PyStr.ContainsInLeft | src/components/researcher.py:390 | text `in` a string is still `in` it after anything is appended |
| PyStr.ContainsInRight | src/components/researcher.py:390 | text `in` a string is still `in` it after anything is prepended |
| PyStr.AbsentByFirstChar | src/components/researcher.py:390 | a non-empty pattern whose first character does not occur in a string is not `in` it |
| PyStr.JoinCons | src/components/researcher.py:433 | joining a head and a non-empty tail is the head, the separator and the joined tail |
| PyStr.JoinAppend | src/components/researcher.py:433 | joining one more piece appends the separator and the piece, or is the piece alone for no earlier pieces |
| PyStr.JoinSplit | src/components/researcher.py:392 | joining the pieces of a split with the separator gives the string back |
| PyStr.SplitHead | src/components/researcher.py:394-395 | `split(sep)[0]` is a prefix of `s` free of `sep`; `s` holds `sep` iff `sep` follows that prefix; without `sep` it is all of `s` |
| PyStr.SplitHeadLeftmost | src/components/researcher.py:394-395 | no occurrence of `sep` starts inside `split(sep)[0]`: the cut is at the first occurrence |
| PyStr.SplitHeadWithin | src/components/researcher.py:394-395 | when `sep` occurs after `a`, `split(sep)[0]` is a prefix of `a` |
| PyStr.SplitPiecesFree | src/components/researcher.py:394-395 | no piece of a split contains the separator |
| PyStr.SplitAbsent | src/components/researcher.py:394-395 | a string without the separator splits into itself alone |
| PyStr.SplitPieceContains | src/components/researcher.py:392 | text found in a piece of a split occurs in the string |
| PyStr.JoinKeepsPieces | src/components/researcher.py:392 | text found in a piece occurs in the joined string |
| PyStr.Replace | src/components/researcher.py:392 | `replace` leaves a string without the pattern unchanged |
| PyStr.ReplaceHoldsRep | src/components/researcher.py:392 | when the pattern occurs, the replacement is `in` the result |
| PyStr.SplitSingle | src/components/researcher.py:392 | a string with exactly one occurrence of the separator, not inside the text before it, splits into the two sides |
| PyStr.ReplaceSingle | src/components/researcher.py:392 | replacing the single occurrence of a pattern swaps it for the replacement and keeps both sides |
| PyStr.LStrip | src/components/researcher.py:394 | the result is a suffix; everything dropped is whitespace; it starts with non-whitespace |
| PyStr.RStrip | src/components/researcher.py:394 | the result is a prefix; everything dropped is whitespace; it ends with non-whitespace |
| PyStr.Strip | src/components/researcher.py:394-395 | `strip()` is no longer than its input, and a non-empty result starts and ends with non-whitespace |
| PyStr.StripIdempotent | src/components/researcher.py:394-395 | stripping twice is stripping once |
| PyStr.StripContains | src/components/researcher.py:394-395 | `strip()` holds no text its input lacks |
| PyStr.StripKeepsChar | src/components/researcher.py:384 | every character of `strip()`'s result occurs in its input, so a stripped line value still holds no newline |
| PyStr.ContainsAcross | src/components/researcher.py:400-427 | an occurrence of a pattern without character `c` lies wholly on one side of a `c` |
| Patterns.Spaces | src/components/researcher.py:379-380 | a greedy `\s*` takes the whole leading whitespace run and stops at non-whitespace |
| Patterns.AnsiAt | src/components/researcher.py:375 | a match is `ESC [`, then digits and `;`, then `m` or `K` |
| Patterns.StripAnsi | src/components/researcher.py:375 | escape removal never lengthens the text and leaves text without ESC unchanged |
| Patterns.StripAnsiKeepsPlain | src/components/researcher.py:375 | a stretch without ESC passes through, and the rest is cleaned on its own |
| Patterns.StripAnsiKeepsPrefix | src/components/researcher.py:375 | the first `k` characters, when none is ESC, are kept and the rest is cleaned on its own |
| Patterns.StripAnsiDropsSequence | src/components/researcher.py:375 | a whole `ESC [ params m/K` sequence is removed |
| Patterns.StripAnsiBrokenStart | src/components/researcher.py:375 | `ESC [` followed by a character that neither continues nor ends a sequence is no match: the ESC is kept |
| Patterns.StripAnsiNotIdempotent | src/components/researcher.py:375 | one `re.sub` pass turns `ESC[ESC[mm` into `ESC[m`, which a second pass would remove |
| Patterns.QuoteEnd | src/components/researcher.py:379 | the lazy `(.*?)"` ends at the first quote and crosses no newline; with no match, every quote has a newline before it |
| Patterns.JsonTaskAt | src/components/researcher.py:379 | a JSON task match at a position is `"`, `task` in any case, `"`, the `\s*:\s*` stage and the quoted value; the captured value holds no quote and no newline |
| Patterns.JsonTaskMatches | src/components/researcher.py:379 | every `"task"` field, in any letter case, with any whitespace around its colon, matches and captures exactly its quoted value |
| Patterns.LineLength | src/components/researcher.py:380 | `[^\n]*` takes everything up to the first newline |
| Patterns.LineTaskAt | src/components/researcher.py:380 | a line task match at a position is `task` in any case, the `\s*:\s*` stage and the rest of the line; the captured value holds no newline |
| Patterns.LineTaskMatches | src/components/researcher.py:380 | every `task:` line, in any letter case, with any whitespace (line breaks included) around its colon, matches and captures the rest of the line its value starts on |
| Patterns.Search | src/components/researcher.py:379-380 | `re.search` finds nothing iff no position matches, else the match at the leftmost matching position |
| Patterns.SearchFinds | src/components/researcher.py:379-380 | a pattern matching at offset `j` and nowhere before makes `re.search` return that match |
| Patterns.TaskValue | src/components/researcher.py:378-384 | a task is found iff either form matches; the JSON form takes priority; otherwise the stripped line form; never a newline |
| Patterns.TaskValueFromJson | src/components/researcher.py:378-382 | the first JSON task field of a chunk names its task |
| Patterns.TaskValueFromLine | src/components/researcher.py:378-384 | a chunk without a JSON task field names the stripped value of its first `task:` match |
| Patterns.TaskJsonNamed | src/components/researcher.py:378-382 | a chunk whose first JSON task field follows some text names that field's quoted value, for every letter case and spacing |
| Patterns.TaskLineNamed | src/components/researcher.py:378-384 | a chunk without a JSON field whose first `task:` match is a given line names that line's value, stripped |
| Patterns.TailOffset | src/components/researcher.py:397 | the lazy DOTALL `.*?` reports the first offset where the closing sentence, any one character and a newline follow, and reports none only when no offset has them |
| Patterns.EchoAt | src/components/researcher.py:397-398 | an echo match is non-empty and requires the heading "참고 맥락:" |
| Patterns.RemoveEcho | src/components/researcher.py:398 | removing echo matches never lengthens the text |
| Patterns.RemoveEchoWithoutHeading | src/components/researcher.py:397-398 | without "참고 맥락:" the echo removal changes nothing |
| GapCrew.StageAgent | src/components/researcher.py:53-183 | the compile stage runs on the manager model, every analysis stage on the general model |
| GapCrew.ResearchersOnGeneralLlm | src/components/researcher.py:90-183 | each of the four analysis stages runs a researcher other than the project manager, on the general model |
| GapCrew.NewGapAnalysisCrew | src/components/researcher.py:22-48 | each guide is its override when truthy, else the stage template's user guide; the inputs are stored as given |
| GapCrew.AnalysisContext | src/components/researcher.py:191-195 | an analysis context holds the client analysis, the interview analysis and the other-files text verbatim |
| GapCrew.CompileContext | src/components/researcher.py:264-267 | the report context holds the same three values verbatim |
| GapCrew.UserInputLine | src/components/researcher.py:199 | the closing line holds the rendered user input, and so a given instruction verbatim |
| GapCrew.StageTask | src/components/researcher.py:188-323 | a stage's task has that stage's agent, expected output, template and guide; its context holds client and interview verbatim, and the other-files analysis when truthy, else "없음"; its closing line holds a given instruction verbatim |
| GapCrew.BuildCrew | src/components/researcher.py:325-345 | five tasks in stage order; researchers on the general model, the compile task on a project manager with the manager model, equal in role and model to the manager agent; agents listed manager first; every user line renders `None` |
| GapCrew.CrewContextsHoldInputs | src/components/researcher.py:333-337 | each task crew() builds holds the crew's own client, interview and other-files texts |
| GapCrew.CrewIgnoresUserInput | src/components/researcher.py:333-337 | the crew built does not depend on the user input the crew was constructed with |
| GapCrew.CrewDropsUserInput | src/components/researcher.py:333-337 | an instruction given to the constructor, whose first character does not occur in the line rendered for `None`, appears in no task's closing line |
| GapCrew.ForwardingCrew | src/components/researcher.py:325-345 | the corrected crew is the same crew with every task's user line rendered from the crew's user input |
| GapCrew.ForwardingCrewCarriesInput | src/components/researcher.py:199 | with forwarding, every task's closing line holds the instruction verbatim |
| GapCrew.ForwardingCrewWithoutInput | src/components/researcher.py:325-345 | without a user input the corrected crew equals crew() |
| GapCrew.Analyze | src/components/researcher.py:347-363 | analyze succeeds iff the engine run succeeds, and then returns its report |
| GapCrew.AnalyzeHidesCause | src/components/researcher.py:362-363 | every engine failure becomes the same bare exception: no message and no explicit cause distinguish two failures |
| Relay.Next | src/components/researcher.py:391 | the advanced index is inside the palette |
| Relay.Tag | src/components/researcher.py:392 | the markup `:colour[text]` is three characters longer than colour and text together, starts with `:`, brackets the text and holds it |
| Relay.Colored | src/components/researcher.py:392 | the markup for a palette colour holds both the colour name and the text |
| Relay.Rotate | src/components/researcher.py:391 | any number of advances keeps the index inside the palette |
| Relay.RotateIsMod | src/components/researcher.py:370-371 | `n` advances from `i` land on `(i + n) % 6` |
| Relay.RotateCycle | src/components/researcher.py:370 | six advances return to the same colour |
| Relay.RotateNext | src/components/researcher.py:391 | advancing once and then `n` times is advancing `n + 1` times |
| Relay.EnterIndex | src/components/researcher.py:390-392 | the entering marker advances the colour once when present, else not at all |
| Relay.MarkEnter | src/components/researcher.py:390-392 | with the marker present, the result holds the marker tagged in the next colour; without it, the text is unchanged |
| Relay.Truncate | src/components/researcher.py:394-395 | after the two cuts neither heading remains |
| Relay.Cut | src/components/researcher.py:390-398 | the text the role blocks see is the tagged text after the two cuts, and holds neither heading |
| Relay.TagRoles | src/components/researcher.py:400-427 | the index stays in the palette; at most one advance per role; no advance means text and index unchanged |
| Relay.TagRolesAdvance | src/components/researcher.py:400-427 | the role blocks move the index by exactly the number of blocks that advanced it |
| Relay.TagRolesBound | src/components/researcher.py:400-427 | the role blocks advance at most once per role present in their input |
| Relay.TagRolesSomeAdvance | src/components/researcher.py:400-409 | when some role is present, at least one block advances, since the first role found always passes the `current_agent` test |
| Relay.TagRolesCount | src/components/researcher.py:400-427 | over the five roles: at most one advance per role present, at least one when any is present, none and the text unchanged when none is |
| Relay.NoRoleNoAdvance | src/components/researcher.py:400-427 | a text naming no role passes the role blocks unchanged |
| Relay.ReplaceTagContains | src/components/researcher.py:407 | tagging the occurrences of a role creates no occurrence of a markup-free name it does not contain |
| Relay.JoinTagContains | src/components/researcher.py:407 | such a name found in a tag-joined string lies in one of the pieces |
| Relay.RolesDistinct | src/components/researcher.py:404-427 | the five roles are pairwise different, so `current_agent` never already holds the role looked for |
| Relay.RoleFresh | src/components/researcher.py:400-427 | a role is never among the roles checked before it, so a found role always passes the `current_agent` test |
| Relay.RolesSeparated | src/components/researcher.py:400-427 | no role contains a role checked after it; roles hold no markup and are longer than any colour name |
| Relay.RolePairApart | src/components/researcher.py:400-427 | a role checked earlier never contains a later one |
| Relay.OverlapRoles | src/components/researcher.py:416-427 | the overlap text holds the achievement and the solution role and no other |
| Relay.OverlapPresent | src/components/researcher.py:416-427 | two roles are present in the overlap text |
| Relay.OverlapTagged | src/components/researcher.py:417 | tagging the achievement role there leaves the tag and the solution role minus its first "원" |
| Relay.OverlapNoSolution | src/components/researcher.py:426-427 | after that tagging the solution role is gone |
| Relay.OverlapNoEnvironment | src/components/researcher.py:421-422 | and there is still no environment role |
| Relay.RoleOverlap | src/components/researcher.py:400-427 | on that text only one block advances and the solution role is never tagged, below the two roles present |
| Relay.RoleStep | src/components/researcher.py:405-409 | one role block agrees with the first step of `TagRoles` |
| Relay.RoleStage | src/components/researcher.py:390-427 | after the entering marker and the role blocks the index has advanced once per advancing block; how many blocks advance is bounded by `Relay.RoleStageAdvances` |
| Relay.RoleStageAdvances | src/components/researcher.py:390-427 | a write's role blocks advance at most once per role present in the cut text, at least once when any is present, and not at all, leaving the cut text as it is, when none is |
| Relay.Clean | src/components/researcher.py:373-429 | a write's index lands `entered + role advances` steps on; it records whether the marker was there and the task found in the cleaned chunk; the role advances are bounded by `Relay.CleanAdvances` |
| Relay.CleanAdvances | src/components/researcher.py:373-429 | one write moves the index by the entering marker plus between one and the number of roles present in the cut text, and by the marker alone when no role is present |
| Relay.MarkFinished | src/components/researcher.py:428-429 | with "Finished chain." present, the result holds it tagged in the current colour; without it, the text is unchanged |
| Relay.CleanTagsFinished | src/components/researcher.py:428-429 | a write's text holds "Finished chain." tagged in the colour the write ends on whenever the role blocks left the marker in place, and is their text otherwise |
| Relay.SixAdvances | src/components/researcher.py:390-427 | a chunk with the marker and all five roles, last role first, enters, advances on all five roles and ends on the colour it started from |
| Relay.CutKeeps | src/components/researcher.py:394-395 | a tagged marker followed by role names passes the two cuts unchanged |
| Relay.RoleHit | src/components/researcher.py:405-409 | a role present once, after text lacking its first character, advances the colour once and is tagged in place |
| Relay.Toasts | src/components/researcher.py:386-387 | one toast `":microscope: " + value` exactly when the task value is non-empty, else none |
| Relay.EchoAfterTruncate | src/components/researcher.py:394-398 | the echo removal after the cuts never changes the text |
| Relay.TruncateIdempotent | src/components/researcher.py:394-395 | cutting twice is cutting once |
| Relay.TruncateWithin | src/components/researcher.py:394-395 | the cuts only remove text |
| Relay.TruncateWithinHead | src/components/researcher.py:394-395 | what survives lies before the first client heading |
| Relay.TruncateBeforeClient | src/components/researcher.py:394 | nothing after the first client heading survives |
| Relay.AnalysisEchoCut | src/components/researcher.py:191-196 | of an echoed research prompt only the text before its client line survives the cuts |
| Relay.RolesAreCrewRoles | src/components/researcher.py:325-332 | the relay's five roles are the crew's agents' roles, in crew() order |
| Relay.StreamToExpander.constructor | src/components/researcher.py:366-371 | empty buffer, colour index 0, nothing shown |
| Relay.StreamToExpander.TagRole | src/components/researcher.py:405-409 | with `current_agent` holding at most an earlier role: a present role becomes current, advances the colour unless already current, and all its occurrences are tagged in the new colour; an absent role changes nothing; either way the block is one step of `TagRoles` |
| Relay.StreamToExpander.TagAllRoles | src/components/researcher.py:400-427 | the five blocks, with `current_agent` starting at `None`, compute exactly `TagRoles` |
| Relay.StreamToExpander.CleanChunk | src/components/researcher.py:373-429 | the cleaned text, the new colour index and the task are exactly `Clean`'s; buffer and page output are untouched |
| Relay.StreamToExpander.Emit | src/components/researcher.py:386-434 | the output steps of write(): a toast for a non-empty task (lines 386-387); the chunk is buffered, and a raw line break flushes old buffer plus chunk as one markdown block and empties the buffer; the colour index is untouched |
| Relay.StreamToExpander.Write | src/components/researcher.py:373-434 | the index becomes `Clean`'s and stays in the palette; a non-empty task raises a toast; a raw newline flushes old buffer plus the cleaned chunk as one block and empties the buffer; otherwise the chunk is appended |

## Left out

- Language-model and crew execution (`LLM`, `Agent`, `Crew.kickoff`): the engine is the `kickoff` parameter of `GapCrew.Analyze`, and `str(result)` is the string it returns.
- The agents' goal and backstory prose, and the fixed instruction text of the report prompt: constant strings with no behaviour. `GapCrew.Description` keeps only the context and the user line.
- `dedent`, the prompt module's templates and `.format`: a description records the system template and its arguments rather than the rendered text. So the `Relay.AnalysisEchoCut` statement is about the undedented context block.
- `st.toast` and `expander.markdown`: recorded as the ghost sequences `toasts` and `markdowns`. The expander object and `unsafe_allow_html` are not modelled.
- The colour list is the module constant `Relay.Colors`, since `write()` never changes it. `current_agent` is a local of `TagAllRoles`.
- Relay.TagRolesBound: one write advances the colour by the entering marker plus at most the number of roles present in the cut text (`Relay.CleanAdvances`), not exactly that number. The overlap of "…연구원" with "원인 및 해결방안 연구원" makes equality false (`Relay.RoleOverlap`).
- GapCrew.BuildCrew: every call of `self.pm()` and of a researcher builder creates a new `Agent` (lines 321, 328, 344 and 329-332, and inside each task builder, e.g. line 201). The model compares agents by value, so "the same agent" means equal in role and model, not the same object.
- GapCrew.AnalyzeHidesCause: `raise Exception` inside `except` still records the engine's exception as the implicit `__context__`; the model's failure carries nothing, so it states only that the message and the explicit cause are lost.
- GapCrew.Analyze: `self.crew()` runs inside the `try` of lines 348-356, so a failure while building the crew would also become the bare `Exception`. `BuildCrew` is total, and the model attributes failure only to `kickoff`.
- Relay.StreamToExpander.Write: the guarantees are stated per call. A sequence of writes is not modelled as a trace.
- Patterns.StripAnsi: the contract does not say that only escape sequences are removed beyond the two lemmas about plain text and whole sequences.
- The commented-out search tool and research helpers, logging, `warnings`, the Streamlit pages, the storage and language-model client modules: outside this core.

## Findings

| source | as written | input that shows it | evidently intended | confidence | as-written member | corrected member |
|---|---|---|---|---|---|---|
| src/components/researcher.py:333-337 | crew() calls every task builder without `self.user_input`, so each prompt's closing line reads "사용자 추가 수정 요청사항: None" | a crew constructed with `user_input="표를 추가하시오"`, as the re-analysis page does (pages/02_분석하기.py:250-255) | pass `self.user_input` to each task builder so that the instruction reaches every stage | likely; not executed | GapCrew.CrewDropsUserInput | GapCrew.ForwardingCrewCarriesInput |

`GapCrew.Analyze` keeps the crew as written, because it models `analyze()`. `GapCrew.ForwardingCrew` is the corrected builder. `GapCrew.ForwardingCrewWithoutInput` shows that the two agree whenever no instruction is given.
