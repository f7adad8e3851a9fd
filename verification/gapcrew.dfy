/**
 * GapAnalysisCrew: the five-stage gap-analysis crew. Its constructor picks
 * each stage's analysis guide, each stage's task carries a context block built
 * from the inputs, crew() fixes the order of the tasks and the agent and
 * language-model profile of each, and analyze() hands the crew to the
 * execution engine and turns any failure into a bare exception.
 *
 * The templates of the prompt module and the `.format` / `dedent` rendering
 * are kept symbolic: a task's description records the template and the
 * arguments it is given rather than the rendered text.
 */
module GapCrew {
  import opened Wrappers
  import opened PyStr
  import opened Headings

  datatype Stage = Performance | Achievement | Environment | Solution | Compile

  /** The order of the tasks in the crew. */
  const StageOrder: seq<Stage> := [Performance, Achievement, Environment, Solution, Compile]

  const ProjectManagerRole: string := "프로젝트 매니저"
  const PerformanceRole: string := "수행 분석 연구원"
  const AchievementRole: string := "성과 분석 연구원"
  const EnvironmentRole: string := "환경 분석 연구원"
  const SolutionRole: string := "원인 및 해결방안 연구원"

  /** The settings an `LLM` is created with; `None` is a setting left at the library default. */
  datatype LlmProfile = LlmProfile(
    model: string,
    temperature: real,
    topP: real,
    requestTimeout: Option<nat>,
    maxTokens: Option<nat>,
    frequencyPenalty: Option<real>,
    presencePenalty: Option<real>)

  const GeneralLlm: LlmProfile :=
    LlmProfile("openai/gpt-4.1-mini-2025-04-14", 0.7, 0.9, Some(120), Some(2048), None, None)
  const ManagerLlm: LlmProfile :=
    LlmProfile("openai/gpt-4.1-2025-04-14", 0.8, 0.9, None, None, Some(0.1), Some(0.1))

  /** An agent: its role and the model it runs on (goal and backstory are constant prose). */
  datatype Agent = Agent(role: string, llm: LlmProfile)

  /** The agent of each stage: pm() for the report, a researcher for each analysis. */
  function StageAgent(stage: Stage): (a: Agent)
    ensures a.llm == (if stage == Compile then ManagerLlm else GeneralLlm)
  {
    match stage
    case Compile => Agent(ProjectManagerRole, ManagerLlm)
    case Performance => Agent(PerformanceRole, GeneralLlm)
    case Achievement => Agent(AchievementRole, GeneralLlm)
    case Environment => Agent(EnvironmentRole, GeneralLlm)
    case Solution => Agent(SolutionRole, GeneralLlm)
  }

  /** One analysis template of the prompt module: its `"system"` and `"user"` entries. */
  datatype StageTemplate = StageTemplate(system: string, user: string)

  datatype Templates = Templates(
    performance: StageTemplate,
    achievement: StageTemplate,
    environment: StageTemplate,
    solution: StageTemplate)

  function TemplateOf(t: Templates, stage: Stage): StageTemplate
    requires stage != Compile
  {
    match stage
    case Performance => t.performance
    case Achievement => t.achievement
    case Environment => t.environment
    case Solution => t.solution
  }

  /** The constructor's optional guide arguments, one per analysis stage. */
  datatype GuideArgs = GuideArgs(
    performance: Option<string>,
    achievement: Option<string>,
    environment: Option<string>,
    solution: Option<string>)

  function GuideArg(g: GuideArgs, stage: Stage): Option<string>
    requires stage != Compile
  {
    match stage
    case Performance => g.performance
    case Achievement => g.achievement
    case Environment => g.environment
    case Solution => g.solution
  }

  /** The fields of a GapAnalysisCrew once constructed (the two LLM objects are the constants above). */
  datatype GapAnalysisCrew = GapAnalysisCrew(
    templates: Templates,
    clientAnalysis: string,
    interviewAnalysis: string,
    otherFilesAnalysis: Option<string>,
    performanceGuide: string,
    achievementGuide: string,
    environmentGuide: string,
    solutionGuide: string,
    userInput: Option<string>)

  function Guide(c: GapAnalysisCrew, stage: Stage): string
    requires stage != Compile
  {
    match stage
    case Performance => c.performanceGuide
    case Achievement => c.achievementGuide
    case Environment => c.environmentGuide
    case Solution => c.solutionGuide
  }

  /** Python truthiness of an optional string: present and not empty. */
  predicate Truthy(o: Option<string>) {
    o.Some? && o.value != []
  }

  /** `o or fallback` */
  function OrElse(o: Option<string>, fallback: string): string {
    if Truthy(o) then o.value else fallback
  }

  /** `GapAnalysisCrew(...)`: every guide is its argument when that is truthy, else the template's user guide. */
  function NewGapAnalysisCrew(templates: Templates, clientAnalysis: string, interviewAnalysis: string,
                              otherFilesAnalysis: Option<string>, userInput: Option<string>,
                              guides: GuideArgs): (c: GapAnalysisCrew)
    ensures forall stage :: stage != Compile ==>
      Guide(c, stage) == (if Truthy(GuideArg(guides, stage)) then GuideArg(guides, stage).value
                          else TemplateOf(templates, stage).user)
    ensures c.clientAnalysis == clientAnalysis && c.interviewAnalysis == interviewAnalysis
    ensures c.otherFilesAnalysis == otherFilesAnalysis && c.userInput == userInput
  {
    GapAnalysisCrew(templates, clientAnalysis, interviewAnalysis, otherFilesAnalysis,
      OrElse(guides.performance, templates.performance.user),
      OrElse(guides.achievement, templates.achievement.user),
      OrElse(guides.environment, templates.environment.user),
      OrElse(guides.solution, templates.solution.user),
      userInput)
  }

  /** `other_files_analysis if other_files_analysis else "없음"` */
  function OtherFilesText(o: Option<string>): (r: string)
    ensures Truthy(o) ==> r == o.value
    ensures !Truthy(o) ==> r == "없음"
  {
    if Truthy(o) then o.value else "없음"
  }

  /** `f"{x}"` for a value that is a string or `None`. */
  function Render(o: Option<string>): (r: string)
    ensures o.Some? ==> r == o.value
    ensures o.None? ==> r == "None"
  {
    match o
    case None => "None"
    case Some(v) => v
  }

  const Indent12: string := "            "
  const Indent16: string := Indent12 + "    "

  /** One labelled line of a context block: a line break, the indentation, the label, the value. */
  function ContextLine(indent: string, heading: string, value: string): string {
    "\n" + indent + heading + value
  }

  /** The `text=` argument every analysis stage passes to its system template. */
  function AnalysisContext(client: string, interview: string, other: Option<string>): (ctx: string)
    ensures Contains(ctx, client) && Contains(ctx, interview) && Contains(ctx, OtherFilesText(other))
  {
    var l1 := ContextLine(Indent16, ClientHeading + " ", client);
    var l2 := ContextLine(Indent16, "> 인터뷰 분석 결과: ", interview);
    var l3 := ContextLine(Indent16, "> 기타 파일 분석 결과: ", OtherFilesText(other));
    LineHoldsValue(Indent16, ClientHeading + " ", client);
    LineHoldsValue(Indent16, "> 인터뷰 분석 결과: ", interview);
    LineHoldsValue(Indent16, "> 기타 파일 분석 결과: ", OtherFilesText(other));
    LinesHold(l1, l2, l3, AnalysisContextEnd, client);
    LinesHold(l1, l2, l3, AnalysisContextEnd, interview);
    LinesHold(l1, l2, l3, AnalysisContextEnd, OtherFilesText(other));
    l1 + l2 + l3 + AnalysisContextEnd
  }

  /** The analysis context ends with the indentation of the closing quotes. */
  const AnalysisContextEnd: string := "\n" + Indent16

  /** The context section of the report-compiling prompt. */
  function CompileContext(client: string, interview: string, other: Option<string>): (ctx: string)
    ensures Contains(ctx, client) && Contains(ctx, interview) && Contains(ctx, OtherFilesText(other))
  {
    var l1 := ContextHeading + ContextLine(Indent12, "> 클라이언트 맥락: ", client);
    var l2 := ContextLine(Indent12, "> 인터뷰 맥락: ", interview);
    var l3 := ContextLine(Indent12, "> 기타 파일 맥락: ", OtherFilesText(other));
    LineHoldsValue(Indent12, "> 클라이언트 맥락: ", client);
    ContainsInRight(ContextHeading, ContextLine(Indent12, "> 클라이언트 맥락: ", client), client);
    LineHoldsValue(Indent12, "> 인터뷰 맥락: ", interview);
    LineHoldsValue(Indent12, "> 기타 파일 맥락: ", OtherFilesText(other));
    LinesHold(l1, l2, l3, [], client);
    LinesHold(l1, l2, l3, [], interview);
    LinesHold(l1, l2, l3, [], OtherFilesText(other));
    EmptyRight(l1 + l2 + l3);
    l1 + l2 + l3
  }

  /** The closing line of every stage's prompt: it shows the rendered user input. */
  function UserInputLine(userInput: Option<string>): (r: string)
    ensures Contains(r, Render(userInput))
    ensures userInput.Some? ==> Contains(r, userInput.value)
  {
    var head := Indent12 + "** > 사용자 추가 수정 요청사항: ";
    ContainsSelf(Render(userInput));
    ContainsInRight(head, Render(userInput), Render(userInput));
    ContainsInLeft(head + Render(userInput), " **", Render(userInput));
    head + Render(userInput) + " **"
  }

  /** A task description before `dedent`: an analysis stage's system template with its two
      arguments, or the report prompt (whose fixed instruction text is not modelled). */
  datatype Description =
    | AnalysisPrompt(systemTemplate: string, text: string, analysisGuide: string, userInputLine: string)
    | ReportPrompt(context: string, userInputLine: string)
  {
    function Context(): string {
      match this
      case AnalysisPrompt(_, text, _, _) => text
      case ReportPrompt(context, _) => context
    }
  }

  datatype Task = Task(stage: Stage, description: Description, agent: Agent, expectedOutput: string)

  function ExpectedOutput(stage: Stage): string {
    match stage
    case Performance => "수행 관련 차이점 분석 보고서"
    case Achievement => "성과 관련 차이점 분석 보고서"
    case Environment => "환경 관련 차이점 분석 보고서"
    case Solution => "원인 및 해결방안 보고서"
    case Compile => "맥락 기반 수행 종류별 원인 분석 및 해결방안 종합 보고서"
  }

  /** analyze_performance, analyze_achievement, analyze_environment, analyze_solution and
      compile_final_report: the task of one stage for the given inputs. */
  function StageTask(c: GapAnalysisCrew, stage: Stage, client: string, interview: string,
                     other: Option<string>, userInput: Option<string>): (t: Task)
    ensures t.stage == stage && t.agent == StageAgent(stage) && t.expectedOutput == ExpectedOutput(stage)
    ensures t.description.userInputLine == UserInputLine(userInput)
    ensures stage == Compile <==> t.description.ReportPrompt?
    ensures stage != Compile ==>
      && t.description.systemTemplate == TemplateOf(c.templates, stage).system
      && t.description.analysisGuide == Guide(c, stage)
    ensures var ctx := t.description.Context();
      && Contains(ctx, client)
      && Contains(ctx, interview)
      && (Truthy(other) ==> Contains(ctx, other.value))
      && (!Truthy(other) ==> Contains(ctx, "없음"))
    ensures userInput.Some? ==> Contains(t.description.userInputLine, userInput.value)
  {
    var description :=
      if stage == Compile then ReportPrompt(CompileContext(client, interview, other), UserInputLine(userInput))
      else AnalysisPrompt(TemplateOf(c.templates, stage).system, AnalysisContext(client, interview, other),
                          Guide(c, stage), UserInputLine(userInput));
    Task(stage, description, StageAgent(stage), ExpectedOutput(stage))
  }

  /** The crew as handed to the execution engine: sequential, with the project manager as manager. */
  datatype CrewRun = CrewRun(agents: seq<Agent>, tasks: seq<Task>, manager: Agent)

  /** crew(): the five tasks in stage order, built from the crew's own inputs and no user input. */
  function BuildCrew(c: GapAnalysisCrew): (r: CrewRun)
    ensures |r.tasks| == |StageOrder| == 5
    ensures forall k :: 0 <= k < 5 ==> r.tasks[k].stage == StageOrder[k]
    ensures forall k :: 0 <= k < 4 ==> r.tasks[k].agent.llm == GeneralLlm && r.tasks[k].agent.role != ProjectManagerRole
    ensures r.tasks[4].agent == Agent(ProjectManagerRole, ManagerLlm) == r.manager
    ensures forall t <- r.tasks :: t.description.userInputLine == UserInputLine(None)
    ensures |r.agents| == 5 && r.agents[0] == r.manager
    ensures forall k :: 0 <= k < 4 ==> r.agents[k + 1] == r.tasks[k].agent
  {
    ResearchersOnGeneralLlm();
    var tasks := seq(5, k requires 0 <= k < 5 =>
      StageTask(c, StageOrder[k], c.clientAnalysis, c.interviewAnalysis, c.otherFilesAnalysis, None));
    var researchers := seq(4, k requires 0 <= k < 4 => StageAgent(StageOrder[k]));
    CrewRun([StageAgent(Compile)] + researchers, tasks, StageAgent(Compile))
  }

  /** The four analysis stages run researchers, none of them the project manager, on the general model. */
  lemma ResearchersOnGeneralLlm()
    ensures forall k :: 0 <= k < 4 ==>
      StageAgent(StageOrder[k]).llm == GeneralLlm && StageAgent(StageOrder[k]).role != ProjectManagerRole
  {
    assert ProjectManagerRole[0] == '프';
    assert PerformanceRole[0] == '수' && AchievementRole[0] == '성';
    assert EnvironmentRole[0] == '환' && SolutionRole[0] == '원';
  }

  /** crew() as evidently intended: the same crew, with the crew's own user input passed to every
      task, as the re-analysis page expects when it constructs the crew with an instruction. */
  function ForwardingCrew(c: GapAnalysisCrew): (r: CrewRun)
    ensures r.agents == BuildCrew(c).agents && r.manager == BuildCrew(c).manager
    ensures |r.tasks| == 5
    ensures forall k :: 0 <= k < 5 ==>
      r.tasks[k].(description := BuildCrew(c).tasks[k].description) == BuildCrew(c).tasks[k]
    ensures forall t <- r.tasks :: t.description.userInputLine == UserInputLine(c.userInput)
  {
    var tasks := seq(5, k requires 0 <= k < 5 =>
      StageTask(c, StageOrder[k], c.clientAnalysis, c.interviewAnalysis, c.otherFilesAnalysis, c.userInput));
    CrewRun(BuildCrew(c).agents, tasks, BuildCrew(c).manager)
  }

  /** The inputs analyze() passes to the engine's kickoff. */
  datatype KickoffInputs = KickoffInputs(
    clientAnalysis: string,
    interviewAnalysis: string,
    otherFilesAnalysis: Option<string>,
    userInput: Option<string>)

  /** `raise Exception`: the class itself, with no message and no explicit cause (Python still records the engine's exception as its implicit context). */
  datatype PipelineError = BareException

  /** analyze(): runs the crew through `kickoff`, the execution engine (language-model calls
      included), and replaces any failure of it by a bare exception. */
  function Analyze<E>(c: GapAnalysisCrew, client: string, interview: string, other: Option<string>,
                      userInput: Option<string>,
                      kickoff: (CrewRun, KickoffInputs) -> Result<string, E>): (r: Result<string, PipelineError>)
    ensures var out := kickoff(BuildCrew(c), KickoffInputs(client, interview, other, userInput));
      && (r.Success? <==> out.Success?)
      && (r.Success? ==> r.value == out.value)
  {
    match kickoff(BuildCrew(c), KickoffInputs(client, interview, other, userInput))
    case Success(report) => Success(report)
    case Failure(_) => Failure(BareException)
  }

  // ------------------------------------------------------------------ lemmas

  lemma LineHoldsValue(indent: string, heading: string, value: string)
    ensures Contains(ContextLine(indent, heading, value), value)
  {
    ContainsSelf(value);
    ContainsInRight("\n" + indent + heading, value, value);
  }

  /** A field of any of the three lines of `l1 + l2 + l3 + tail` occurs in the whole. */
  lemma LinesHold(l1: string, l2: string, l3: string, tail: string, v: string)
    requires Contains(l1, v) || Contains(l2, v) || Contains(l3, v)
    ensures Contains(l1 + l2 + l3 + tail, v)
  {
    if Contains(l1, v) {
      ContainsInLeft(l1, l2, v);
    } else if Contains(l2, v) {
      ContainsInRight(l1, l2, v);
    }
    if !Contains(l3, v) {
      ContainsInLeft(l1 + l2, l3, v);
    } else {
      ContainsInRight(l1 + l2, l3, v);
    }
    ContainsInLeft(l1 + l2 + l3, tail, v);
  }

  /** Each of the five tasks crew() builds carries the crew's own three analyses in its context. */
  lemma CrewContextsHoldInputs(c: GapAnalysisCrew, k: nat)
    requires k < 5
    ensures var ctx := BuildCrew(c).tasks[k].description.Context();
      && Contains(ctx, c.clientAnalysis)
      && Contains(ctx, c.interviewAnalysis)
      && Contains(ctx, OtherFilesText(c.otherFilesAnalysis))
  {
    assert BuildCrew(c).tasks[k] ==
      StageTask(c, StageOrder[k], c.clientAnalysis, c.interviewAnalysis, c.otherFilesAnalysis, None);
  }

  /** crew() never looks at the crew's user input. */
  lemma CrewIgnoresUserInput(c: GapAnalysisCrew, u: Option<string>)
    ensures BuildCrew(c.(userInput := u)) == BuildCrew(c)
  {
  }

  /** A failure reaches the caller without a message or an explicit cause: any two failures look the same. */
  lemma AnalyzeHidesCause<E>(c: GapAnalysisCrew, client: string, interview: string, other: Option<string>,
                             userInput: Option<string>,
                             k1: (CrewRun, KickoffInputs) -> Result<string, E>,
                             k2: (CrewRun, KickoffInputs) -> Result<string, E>)
    requires k1(BuildCrew(c), KickoffInputs(client, interview, other, userInput)).Failure?
    requires k2(BuildCrew(c), KickoffInputs(client, interview, other, userInput)).Failure?
    ensures Analyze(c, client, interview, other, userInput, k1) == Analyze(c, client, interview, other, userInput, k2)
    ensures Analyze(c, client, interview, other, userInput, k1) == Failure(BareException)
  {
  }

  /** As written, an instruction given to the crew reaches no task: every task's closing line
      reads "None", so an instruction whose first character that line lacks appears in none. */
  lemma CrewDropsUserInput(c: GapAnalysisCrew, u: string)
    requires c.userInput == Some(u) && u != [] && u[0] !in UserInputLine(None)
    ensures forall t <- BuildCrew(c).tasks :: !Contains(t.description.userInputLine, u)
  {
    AbsentByFirstChar(UserInputLine(None), u);
  }

  /** With the user input forwarded, every task's prompt carries the instruction ... */
  lemma ForwardingCrewCarriesInput(c: GapAnalysisCrew, u: string)
    requires c.userInput == Some(u)
    ensures forall t <- ForwardingCrew(c).tasks :: Contains(t.description.userInputLine, u)
  {
  }

  /** ... and without one the intended crew is the crew as written. */
  lemma ForwardingCrewWithoutInput(c: GapAnalysisCrew)
    requires c.userInput == None
    ensures ForwardingCrew(c) == BuildCrew(c)
  {
    assert ForwardingCrew(c).tasks == BuildCrew(c).tasks;
  }
}
