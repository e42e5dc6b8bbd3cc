/** The argument vector `buildClaudeCLIArgs` builds for the Claude CLI,
    and a reference reading of that vector by the CLI's option grammar:
    which options take a value, which are switches, and that "--" ends the
    options. The round-trip lemma says the CLI reads back exactly the
    settings the options record asks for. */
module ClaudeArgs {
  import opened Wrappers

  datatype ToolsSettings = ToolsSettings(allowed: seq<string>, disallowed: seq<string>, skipPermissions: bool)

  datatype ImageData = ImageData(data: string, mimeType: string)

  datatype ClaudeOptions = ClaudeOptions(
    sessionId: string,
    projectPath: string,
    cwd: string,
    resume: bool,
    tools: Option<ToolsSettings>,
    permissionMode: string,
    images: seq<ImageData>,
    model: string)

  const PlanModeTools: seq<string> := ["Read", "Task", "exit_plan_mode", "TodoRead", "TodoWrite"]

  /** `flag v` for every `v`, in order. */
  function FlagPairs(flag: string, values: seq<string>): seq<string> {
    if |values| == 0 then [] else [flag, values[0]] + FlagPairs(flag, values[1..])
  }

  function ResumeArgs(o: ClaudeOptions): seq<string> {
    if o.resume && o.sessionId != "" then ["--resume", o.sessionId] else []
  }

  const BaseArgs: seq<string> := ["--output-format", "stream-json", "--verbose"]

  function McpArgs(hasMcp: bool, mcpPath: string): seq<string> {
    if hasMcp && mcpPath != "" then ["--mcp-config", mcpPath] else []
  }

  function ModelName(o: ClaudeOptions): string {
    if o.model == "" then "sonnet" else o.model
  }

  function ModelArgs(o: ClaudeOptions): seq<string> {
    if !o.resume then ["--model", ModelName(o)] else []
  }

  predicate UsesPermissionMode(o: ClaudeOptions) {
    o.permissionMode != "" && o.permissionMode != "default"
  }

  function PermissionArgs(o: ClaudeOptions): seq<string> {
    if UsesPermissionMode(o) then ["--permission-mode", o.permissionMode] else []
  }

  /** Whether the tools settings turn permission prompts off. */
  predicate SkipsPermissions(o: ClaudeOptions) {
    o.tools.Some? && o.tools.value.skipPermissions && o.permissionMode != "plan"
  }

  function AllowedList(o: ClaudeOptions): seq<string> {
    if o.tools.None? || SkipsPermissions(o) then []
    else o.tools.value.allowed + (if o.permissionMode == "plan" then PlanModeTools else [])
  }

  function DisallowedList(o: ClaudeOptions): seq<string> {
    if o.tools.None? || SkipsPermissions(o) then [] else o.tools.value.disallowed
  }

  function ToolArgs(o: ClaudeOptions): seq<string> {
    if o.tools.None? then []
    else if SkipsPermissions(o) then ["--dangerously-skip-permissions"]
    else
      FlagPairs("--allowedTools", o.tools.value.allowed) +
      FlagPairs("--disallowedTools", o.tools.value.disallowed) +
      (if o.permissionMode == "plan" then FlagPairs("--allowedTools", PlanModeTools) else [])
  }

  function PrintArgs(command: string): seq<string> {
    if command != "" then ["--print", "--", command] else []
  }

  /** `buildClaudeCLIArgs`; whether MCP servers are configured and the
      config path are parameters, since finding them reads the home
      directory. */
  function BuildClaudeCLIArgs(command: string, o: ClaudeOptions, hasMcp: bool, mcpPath: string): seq<string> {
    ResumeArgs(o) + (BaseArgs + (McpArgs(hasMcp, mcpPath) +
    (ModelArgs(o) + (PermissionArgs(o) + (ToolArgs(o) + PrintArgs(command))))))
  }

  /** A non-empty command is always the last argument, behind
      "--print --", so the CLI reads it as the prompt. */
  lemma BuildArgsPrintLast(command: string, o: ClaudeOptions, hasMcp: bool, mcpPath: string)
    requires command != ""
    ensures var args := BuildClaudeCLIArgs(command, o, hasMcp, mcpPath);
            |args| >= 6 && args[|args| - 3..] == ["--print", "--", command]
  {
    var front := McpArgs(hasMcp, mcpPath) + (ModelArgs(o) + (PermissionArgs(o) + ToolArgs(o)));
    var p := PrintArgs(command);
    Regroup(McpArgs(hasMcp, mcpPath), ModelArgs(o), PermissionArgs(o), ToolArgs(o), p);
    var args := (ResumeArgs(o) + BaseArgs + front) + p;
    assert BuildClaudeCLIArgs(command, o, hasMcp, mcpPath) == args;
    assert args[|args| - 3..] == p;
  }

  lemma Regroup<T>(a: seq<T>, b: seq<T>, c: seq<T>, d: seq<T>, e: seq<T>)
    ensures a + (b + (c + (d + e))) == (a + (b + (c + d))) + e
  {
  }

  /** A resumed session's vector starts with `--resume <id>`. */
  lemma BuildArgsResumeFirst(command: string, o: ClaudeOptions, hasMcp: bool, mcpPath: string)
    requires o.resume && o.sessionId != ""
    ensures BuildClaudeCLIArgs(command, o, hasMcp, mcpPath)[..2] == ["--resume", o.sessionId]
  {
    var rest := BaseArgs + (McpArgs(hasMcp, mcpPath) +
                (ModelArgs(o) + (PermissionArgs(o) + (ToolArgs(o) + PrintArgs(command)))));
    assert BuildClaudeCLIArgs(command, o, hasMcp, mcpPath) == ["--resume", o.sessionId] + rest;
  }

  // ----- the reference reading ---------------------------------------------

  /** The options that take a value. */
  datatype Flag = Resume | OutputFormat | McpConfig | ModelFlag | PermissionMode | Allowed | Disallowed

  /** The options that are switches; "-p" is the short spelling of "--print". */
  datatype Switch = Verbose | SkipPermissions | PrintSwitch

  /** How the CLI's option grammar reads one argument. */
  datatype Token = ValueOpt(flag: Flag) | SwitchOpt(switch: Switch) | EndOfOptions | UnknownOpt | Arg

  function FlagName(f: Flag): string {
    match f
    case Resume => "--resume"
    case OutputFormat => "--output-format"
    case McpConfig => "--mcp-config"
    case ModelFlag => "--model"
    case PermissionMode => "--permission-mode"
    case Allowed => "--allowedTools"
    case Disallowed => "--disallowedTools"
  }

  /** Text the grammar reads as an option rather than an argument. */
  predicate OptionLike(a: string) {
    |a| > 1 && a[0] == '-'
  }

  function Classify(a: string): (t: Token)
    ensures t == Arg <==> !OptionLike(a)
  {
    if !OptionLike(a) then Arg
    else if a == "--" then EndOfOptions
    else if a == "--resume" then ValueOpt(Resume)
    else if a == "--output-format" then ValueOpt(OutputFormat)
    else if a == "--mcp-config" then ValueOpt(McpConfig)
    else if a == "--model" then ValueOpt(ModelFlag)
    else if a == "--permission-mode" then ValueOpt(PermissionMode)
    else if a == "--allowedTools" then ValueOpt(Allowed)
    else if a == "--disallowedTools" then ValueOpt(Disallowed)
    else if a == "--verbose" then SwitchOpt(Verbose)
    else if a == "--dangerously-skip-permissions" then SwitchOpt(SkipPermissions)
    else if a == "--print" || a == "-p" then SwitchOpt(PrintSwitch)
    else UnknownOpt
  }

  /** Every value option is recognised under its own name. */
  lemma ClassifyFlagName(f: Flag)
    ensures Classify(FlagName(f)) == ValueOpt(f)
  {
    var n := FlagName(f);
    assert OptionLike(n);
    assert n != "--" by { assert |n| > 2; }
    match f
    case Resume =>
    case OutputFormat => assert n[2] != "--resume"[2];
    case McpConfig => assert n[2] != "--resume"[2] && n[2] != "--output-format"[2];
    case ModelFlag => assert |n| != |"--resume"| && |n| != |"--output-format"| && |n| != |"--mcp-config"|;
    case PermissionMode =>
      assert n[2] != "--resume"[2] && n[2] != "--output-format"[2] && n[2] != "--mcp-config"[2] && n[2] != "--model"[2];
    case Allowed =>
      assert n[2] != "--resume"[2] && n[2] != "--output-format"[2] && n[2] != "--mcp-config"[2] && n[2] != "--model"[2];
      assert n[2] != "--permission-mode"[2];
    case Disallowed =>
      assert n[2] != "--resume"[2] && n[2] != "--output-format"[2] && n[2] != "--mcp-config"[2] && n[2] != "--model"[2];
      assert n[2] != "--permission-mode"[2] && n[2] != "--allowedTools"[2];
  }

  lemma ClassifySwitches()
    ensures Classify("--verbose") == SwitchOpt(Verbose)
    ensures Classify("--dangerously-skip-permissions") == SwitchOpt(SkipPermissions)
    ensures Classify("--print") == SwitchOpt(PrintSwitch)
    ensures Classify("-p") == SwitchOpt(PrintSwitch)
    ensures Classify("--") == EndOfOptions
  {
    ClassifyVerbose();
    ClassifySkip();
    ClassifyPrint();
    var s := "-p";
    assert s != "--" by { assert s[1] != "--"[1]; }
    assert |s| == 2;
  }

  lemma ClassifyVerbose()
    ensures Classify("--verbose") == SwitchOpt(Verbose)
  {
    var v := "--verbose";
    assert v != "--" && v[2] != "--resume"[2] && v[2] != "--output-format"[2] && v[2] != "--mcp-config"[2];
    assert v[2] != "--model"[2] && v[2] != "--permission-mode"[2] && v[2] != "--allowedTools"[2];
    assert v[2] != "--disallowedTools"[2];
  }

  lemma ClassifySkip()
    ensures Classify("--dangerously-skip-permissions") == SwitchOpt(SkipPermissions)
  {
    var d := "--dangerously-skip-permissions";
    assert d != "--" && d[2] != "--resume"[2] && d[2] != "--output-format"[2] && d[2] != "--mcp-config"[2];
    assert d[2] != "--model"[2] && d[2] != "--permission-mode"[2] && d[2] != "--allowedTools"[2];
    assert |d| != |"--disallowedTools"| && d[2] != "--verbose"[2];
  }

  lemma ClassifyPrint()
    ensures Classify("--print") == SwitchOpt(PrintSwitch)
  {
    var p := "--print";
    assert p != "--" && p[2] != "--resume"[2] && p[2] != "--output-format"[2] && p[2] != "--mcp-config"[2];
    assert p[2] != "--model"[2] && |p| != |"--permission-mode"| && p[2] != "--allowedTools"[2];
    assert p[2] != "--disallowedTools"[2] && p[2] != "--verbose"[2] && p[2] != "--dangerously-skip-permissions"[2];
  }

  /** The settings a CLI invocation asks for. */
  datatype CliView = CliView(
    resume: Option<string>,
    outputFormat: Option<string>,
    verbose: bool,
    mcpConfig: Option<string>,
    model: Option<string>,
    permissionMode: Option<string>,
    skipPermissions: bool,
    allowed: seq<string>,
    disallowed: seq<string>,
    printMode: bool,
    prompt: seq<string>)

  const EmptyView: CliView := CliView(None, None, false, None, None, None, false, [], [], false, [])

  /** A later occurrence of a single-valued option wins; the tool options
      accumulate. */
  function SetValue(v: CliView, f: Flag, value: string): CliView {
    match f
    case Resume => v.(resume := Some(value))
    case OutputFormat => v.(outputFormat := Some(value))
    case McpConfig => v.(mcpConfig := Some(value))
    case ModelFlag => v.(model := Some(value))
    case PermissionMode => v.(permissionMode := Some(value))
    case Allowed => v.(allowed := v.allowed + [value])
    case Disallowed => v.(disallowed := v.disallowed + [value])
  }

  function SetSwitch(v: CliView, s: Switch): CliView {
    match s
    case Verbose => v.(verbose := true)
    case SkipPermissions => v.(skipPermissions := true)
    case PrintSwitch => v.(printMode := true)
  }

  /** Reads `args` onto `v`: a value option consumes the next argument
      whatever it looks like; after "--" everything is an argument; an
      unknown option, or a value option with nothing after it, is an
      error. */
  function Parse(args: seq<string>, v: CliView): Option<CliView>
    decreases |args|
  {
    if |args| == 0 then Some(v)
    else
      match Classify(args[0])
      case EndOfOptions => Some(v.(prompt := v.prompt + args[1..]))
      case ValueOpt(f) => if |args| < 2 then None else Parse(args[2..], SetValue(v, f, args[1]))
      case SwitchOpt(s) => Parse(args[1..], SetSwitch(v, s))
      case UnknownOpt => None
      case Arg => Parse(args[1..], v.(prompt := v.prompt + [args[0]]))
  }

  lemma ParseValue(f: Flag, value: string, rest: seq<string>, v: CliView)
    ensures Parse([FlagName(f), value] + rest, v) == Parse(rest, SetValue(v, f, value))
  {
    ClassifyFlagName(f);
    assert ([FlagName(f), value] + rest)[2..] == rest;
  }

  lemma ParseSwitch(name: string, s: Switch, rest: seq<string>, v: CliView)
    requires Classify(name) == SwitchOpt(s)
    ensures Parse([name] + rest, v) == Parse(rest, SetSwitch(v, s))
  {
    assert ([name] + rest)[1..] == rest;
  }

  /** The view with `values` added to the list option `f`. */
  function AddAll(v: CliView, f: Flag, values: seq<string>): CliView
    requires f == Allowed || f == Disallowed
  {
    if f == Allowed then v.(allowed := v.allowed + values) else v.(disallowed := v.disallowed + values)
  }

  lemma AddAllNone(v: CliView, f: Flag)
    requires f == Allowed || f == Disallowed
    ensures AddAll(v, f, []) == v
  {
    assert v.allowed + [] == v.allowed && v.disallowed + [] == v.disallowed;
  }

  lemma AddAllStep(v: CliView, f: Flag, values: seq<string>)
    requires f == Allowed || f == Disallowed
    requires |values| > 0
    ensures AddAll(SetValue(v, f, values[0]), f, values[1..]) == AddAll(v, f, values)
  {
    assert v.allowed + [values[0]] + values[1..] == v.allowed + values;
    assert v.disallowed + [values[0]] + values[1..] == v.disallowed + values;
  }

  lemma FlagPairsCons(flag: string, values: seq<string>, rest: seq<string>)
    requires |values| > 0
    ensures FlagPairs(flag, values) + rest == [flag, values[0]] + (FlagPairs(flag, values[1..]) + rest)
  {
  }

  lemma {:induction false} ParseFlagPairs(f: Flag, values: seq<string>, rest: seq<string>, v: CliView)
    requires f == Allowed || f == Disallowed
    ensures Parse(FlagPairs(FlagName(f), values) + rest, v) == Parse(rest, AddAll(v, f, values))
    decreases |values|
  {
    if |values| == 0 {
      assert FlagPairs(FlagName(f), values) + rest == rest;
      AddAllNone(v, f);
    } else {
      var tail := FlagPairs(FlagName(f), values[1..]) + rest;
      FlagPairsCons(FlagName(f), values, rest);
      ParseValue(f, values[0], tail, v);
      ParseFlagPairs(f, values[1..], rest, SetValue(v, f, values[0]));
      AddAllStep(v, f, values);
    }
  }

  /** What the options record asks the CLI for. */
  function Expected(command: string, o: ClaudeOptions, hasMcp: bool, mcpPath: string): CliView {
    CliView(
      if o.resume && o.sessionId != "" then Some(o.sessionId) else None,
      Some("stream-json"),
      true,
      if hasMcp && mcpPath != "" then Some(mcpPath) else None,
      if !o.resume then Some(ModelName(o)) else None,
      if UsesPermissionMode(o) then Some(o.permissionMode) else None,
      SkipsPermissions(o),
      AllowedList(o),
      DisallowedList(o),
      command != "",
      if command != "" then [command] else [])
  }

  /** The plan-mode tools appended to the allowed list. */
  function PlanArgs(o: ClaudeOptions): seq<string> {
    if o.permissionMode == "plan" then FlagPairs("--allowedTools", PlanModeTools) else []
  }

  lemma ParsePlan(o: ClaudeOptions, rest: seq<string>, v: CliView)
    ensures Parse(PlanArgs(o) + rest, v) ==
            Parse(rest, AddAll(v, Allowed, if o.permissionMode == "plan" then PlanModeTools else []))
  {
    if o.permissionMode == "plan" {
      ParseFlagPairs(Allowed, PlanModeTools, rest, v);
    } else {
      assert PlanArgs(o) + rest == rest;
      AddAllNone(v, Allowed);
    }
  }

  /** The tool options as three runs of pairs. */
  lemma ToolArgsRuns(o: ClaudeOptions, rest: seq<string>)
    requires o.tools.Some? && !SkipsPermissions(o)
    ensures ToolArgs(o) + rest ==
            FlagPairs(FlagName(Allowed), o.tools.value.allowed) +
            (FlagPairs(FlagName(Disallowed), o.tools.value.disallowed) + (PlanArgs(o) + rest))
  {
  }

  /** The tool options of a record whose tools do not skip permissions. */
  lemma ParseToolLists(o: ClaudeOptions, rest: seq<string>, v: CliView)
    requires o.tools.Some? && !SkipsPermissions(o)
    requires v.allowed == [] && v.disallowed == []
    ensures Parse(ToolArgs(o) + rest, v) ==
            Parse(rest, v.(allowed := AllowedList(o), disallowed := DisallowedList(o)))
  {
    var t := o.tools.value;
    var inner := PlanArgs(o) + rest;
    var mid := FlagPairs(FlagName(Disallowed), t.disallowed) + inner;
    ToolArgsRuns(o, rest);
    ParseFlagPairs(Allowed, t.allowed, mid, v);
    var v1 := AddAll(v, Allowed, t.allowed);
    ParseFlagPairs(Disallowed, t.disallowed, inner, v1);
    var v2 := AddAll(v1, Disallowed, t.disallowed);
    ParsePlan(o, rest, v2);
    assert [] + t.allowed == t.allowed && [] + t.disallowed == t.disallowed;
    assert AddAll(v2, Allowed, if o.permissionMode == "plan" then PlanModeTools else []) ==
           v.(allowed := AllowedList(o), disallowed := DisallowedList(o));
  }

  lemma ParseTools(o: ClaudeOptions, rest: seq<string>, v: CliView)
    requires v.allowed == [] && v.disallowed == [] && !v.skipPermissions
    ensures Parse(ToolArgs(o) + rest, v) ==
            Parse(rest, v.(skipPermissions := SkipsPermissions(o), allowed := AllowedList(o),
                           disallowed := DisallowedList(o)))
  {
    if o.tools.None? {
      assert ToolArgs(o) + rest == rest;
      assert v.(skipPermissions := false, allowed := [], disallowed := []) == v;
    } else if SkipsPermissions(o) {
      ClassifySwitches();
      ParseSwitch("--dangerously-skip-permissions", SkipPermissions, rest, v);
      assert AllowedList(o) == [] && DisallowedList(o) == [];
    } else {
      ParseToolLists(o, rest, v);
    }
  }

  /** An optional `flag value` pair reads as setting `flag` when present. */
  lemma ParseOptional(present: bool, f: Flag, value: string, rest: seq<string>, v: CliView)
    ensures Parse((if present then [FlagName(f), value] else []) + rest, v) ==
            Parse(rest, if present then SetValue(v, f, value) else v)
  {
    if present {
      ParseValue(f, value, rest, v);
    } else {
      assert [] + rest == rest;
    }
  }

  /** The view after the resume, format, verbose and MCP options. */
  function HeadView(o: ClaudeOptions, hasMcp: bool, mcpPath: string): CliView {
    EmptyView.(resume := if o.resume && o.sessionId != "" then Some(o.sessionId) else None,
               outputFormat := Some("stream-json"), verbose := true,
               mcpConfig := if hasMcp && mcpPath != "" then Some(mcpPath) else None)
  }

  /** The fixed options set the format and the verbose switch. */
  lemma ParseBase(rest: seq<string>, v: CliView)
    ensures Parse(BaseArgs + rest, v) ==
            Parse(rest, SetSwitch(SetValue(v, OutputFormat, "stream-json"), Verbose))
  {
    assert BaseArgs + rest == [FlagName(OutputFormat), "stream-json"] + (["--verbose"] + rest);
    ParseValue(OutputFormat, "stream-json", ["--verbose"] + rest, v);
    ClassifyVerbose();
    ParseSwitch("--verbose", Verbose, rest, SetValue(v, OutputFormat, "stream-json"));
  }

  lemma ParseHead(o: ClaudeOptions, hasMcp: bool, mcpPath: string, rest: seq<string>)
    ensures Parse(ResumeArgs(o) + (BaseArgs + (McpArgs(hasMcp, mcpPath) + rest)), EmptyView) ==
            Parse(rest, HeadView(o, hasMcp, mcpPath))
  {
    var mcp := McpArgs(hasMcp, mcpPath) + rest;
    var resumes := o.resume && o.sessionId != "";
    var v1 := if resumes then SetValue(EmptyView, Resume, o.sessionId) else EmptyView;
    ParseOptional(resumes, Resume, o.sessionId, BaseArgs + mcp, EmptyView);
    ParseBase(mcp, v1);
    var v3 := SetSwitch(SetValue(v1, OutputFormat, "stream-json"), Verbose);
    var mcps := hasMcp && mcpPath != "";
    ParseOptional(mcps, McpConfig, mcpPath, rest, v3);
  }

  lemma ParseMiddle(o: ClaudeOptions, rest: seq<string>, v: CliView)
    ensures Parse(ModelArgs(o) + (PermissionArgs(o) + rest), v) ==
            Parse(rest, v.(model := if !o.resume then Some(ModelName(o)) else v.model,
                           permissionMode := if UsesPermissionMode(o) then Some(o.permissionMode) else v.permissionMode))
  {
    var v5 := if !o.resume then SetValue(v, ModelFlag, ModelName(o)) else v;
    ParseOptional(!o.resume, ModelFlag, ModelName(o), PermissionArgs(o) + rest, v);
    ParseOptional(UsesPermissionMode(o), PermissionMode, o.permissionMode, rest, v5);
  }

  lemma ParsePrint(command: string, v: CliView)
    ensures Parse(PrintArgs(command), v) ==
            Some(if command != "" then v.(printMode := true, prompt := v.prompt + [command]) else v)
  {
    if command != "" {
      ClassifySwitches();
      ParseSwitch("--print", PrintSwitch, ["--", command], v);
      assert PrintArgs(command) == ["--print"] + ["--", command];
      assert ["--", command][1..] == [command];
    }
  }

  /** The CLI reads `buildClaudeCLIArgs`' vector as exactly what the options
      ask for: `--resume` only with a session id, the streaming format
      always, `--model` (default "sonnet") only for a new session, the
      permission mode unless empty or "default", skipped permissions only
      outside plan mode, the tool lists in input order with the plan tools
      appended in plan mode, and the command as the single prompt, read as
      text even when it starts with '-'. */
  lemma {:induction false} ParseBuildArgs(command: string, o: ClaudeOptions, hasMcp: bool, mcpPath: string)
    ensures Parse(BuildClaudeCLIArgs(command, o, hasMcp, mcpPath), EmptyView) ==
            Some(Expected(command, o, hasMcp, mcpPath))
  {
    var tools := ToolArgs(o) + PrintArgs(command);
    var middle := ModelArgs(o) + (PermissionArgs(o) + tools);
    ParseHead(o, hasMcp, mcpPath, middle);
    var h := HeadView(o, hasMcp, mcpPath);
    ParseMiddle(o, tools, h);
    var m := h.(model := if !o.resume then Some(ModelName(o)) else h.model,
                permissionMode := if UsesPermissionMode(o) then Some(o.permissionMode) else h.permissionMode);
    ParseTools(o, PrintArgs(command), m);
    var t := m.(skipPermissions := SkipsPermissions(o), allowed := AllowedList(o), disallowed := DisallowedList(o));
    ParsePrint(command, t);
    FinalView(command, o, hasMcp, mcpPath, t);
  }

  lemma FinalView(command: string, o: ClaudeOptions, hasMcp: bool, mcpPath: string, t: CliView)
    requires t == HeadView(o, hasMcp, mcpPath).(
      model := if !o.resume then Some(ModelName(o)) else None,
      permissionMode := if UsesPermissionMode(o) then Some(o.permissionMode) else None,
      skipPermissions := SkipsPermissions(o), allowed := AllowedList(o), disallowed := DisallowedList(o))
    ensures (if command != "" then t.(printMode := true, prompt := t.prompt + [command]) else t) ==
            Expected(command, o, hasMcp, mcpPath)
  {
    assert t.prompt == [] && [] + [command] == [command];
  }

  /** Asking to resume without a session id asks for neither a session to
      resume nor a model: the CLI starts a fresh session on its own default
      model rather than "sonnet". */
  lemma ResumeWithoutSessionId(command: string, o: ClaudeOptions, hasMcp: bool, mcpPath: string)
    requires o.resume && o.sessionId == ""
    ensures var r := Parse(BuildClaudeCLIArgs(command, o, hasMcp, mcpPath), EmptyView);
            r.Some? && r.value.resume.None? && r.value.model.None?
  {
    ParseBuildArgs(command, o, hasMcp, mcpPath);
  }

  // ----- the chat argv -------------------------------------------------------

  /** The vector the chat stream hard-codes instead of calling
      `buildClaudeCLIArgs`: the message is the last argument, not after
      "--". */
  function ChatArgs(message: string): seq<string> {
    ["--output-format", "stream-json", "--verbose", "--dangerously-skip-permissions", "-p", message]
  }

  /** Under the grammar assumed here, the chat message reaches the CLI as
      its prompt exactly when it does not look like an option: a message
      such as "--help" is rejected as an unknown option, "--verbose" is
      swallowed as a switch, and "--" ends the options with an empty
      prompt. */
  lemma ChatPromptIffNotOptionLike(message: string)
    ensures var r := Parse(ChatArgs(message), EmptyView);
            (r.Some? && r.value.prompt == [message]) <==> !OptionLike(message)
  {
    var v4 := ChatSwitches(message);
    ParseLast(message, v4);
    assert [] + [message] == [message];
  }

  /** The chat vector with the message placed after "--", as the build
      service places the user input. */
  function GuardedChatArgs(message: string): seq<string> {
    ["--output-format", "stream-json", "--verbose", "--dangerously-skip-permissions", "-p", "--", message]
  }

  /** With the guard every message, whatever it looks like, is the whole
      prompt, and the switches are read as before. */
  lemma GuardedChatPrompt(message: string)
    ensures var r := Parse(GuardedChatArgs(message), EmptyView);
            r.Some? && r.value.prompt == [message] && r.value.printMode && r.value.verbose &&
            r.value.skipPermissions && r.value.outputFormat == Some("stream-json")
  {
    var v4 := ChatSwitchesGuarded(message);
    ClassifySwitches();
    var tail := ["--", message];
    assert tail[1..] == [message];
    assert [] + [message] == [message];
  }

  /** The first five arguments of the chat vector are read as the output
      format and three switches. */
  lemma ChatSwitches(message: string) returns (v4: CliView)
    ensures v4 == SetSwitch(SetSwitch(SetSwitch(SetValue(EmptyView, OutputFormat, "stream-json"), Verbose),
                                      SkipPermissions), PrintSwitch)
    ensures Parse(ChatArgs(message), EmptyView) == Parse([message], v4)
  {
    var v2 := SetSwitch(SetValue(EmptyView, OutputFormat, "stream-json"), Verbose);
    var v3 := SetSwitch(v2, SkipPermissions);
    v4 := SetSwitch(v3, PrintSwitch);
    var tail := [message];
    assert ChatArgs(message) == BaseArgs + (["--dangerously-skip-permissions"] + (["-p"] + tail));
    ParseBase(["--dangerously-skip-permissions"] + (["-p"] + tail), EmptyView);
    ClassifySkip();
    ParseSwitch("--dangerously-skip-permissions", SkipPermissions, ["-p"] + tail, v2);
    ClassifySwitches();
    ParseSwitch("-p", PrintSwitch, tail, v3);
  }

  lemma ChatSwitchesGuarded(message: string) returns (v4: CliView)
    ensures v4 == SetSwitch(SetSwitch(SetSwitch(SetValue(EmptyView, OutputFormat, "stream-json"), Verbose),
                                      SkipPermissions), PrintSwitch)
    ensures Parse(GuardedChatArgs(message), EmptyView) == Parse(["--", message], v4)
  {
    var v2 := SetSwitch(SetValue(EmptyView, OutputFormat, "stream-json"), Verbose);
    var v3 := SetSwitch(v2, SkipPermissions);
    v4 := SetSwitch(v3, PrintSwitch);
    var tail := ["--", message];
    assert GuardedChatArgs(message) == BaseArgs + (["--dangerously-skip-permissions"] + (["-p"] + tail));
    ParseBase(["--dangerously-skip-permissions"] + (["-p"] + tail), EmptyView);
    ClassifySkip();
    ParseSwitch("--dangerously-skip-permissions", SkipPermissions, ["-p"] + tail, v2);
    ClassifySwitches();
    ParseSwitch("-p", PrintSwitch, tail, v3);
  }

  /** A last argument is added to the prompt exactly when it does not look
      like an option. */
  lemma ParseLast(m: string, v: CliView)
    ensures (Parse([m], v).Some? && Parse([m], v).value.prompt == v.prompt + [m]) <==> !OptionLike(m)
  {
    var args := [m];
    assert args[1..] == [];
    assert v.prompt + [] != v.prompt + [m];
    match Classify(m)
    case EndOfOptions =>
    case ValueOpt(f) =>
    case SwitchOpt(sw) =>
    case UnknownOpt =>
    case Arg =>
  }
}
