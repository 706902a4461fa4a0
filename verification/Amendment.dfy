/** src/codex_workbench/acceptance_amendment.py: adding the Host build before the Client build
    of a blocked task's acceptance commands. A command is what its shell quoting means, its
    argument vector; an empty one stands for a source that does not parse. A digest stands for
    what it was computed from. */
module Amendment {
  import opened Options

  datatype Arg = Arg(text: string)
  type Command = seq<Arg>

  const CLIENT_PROJECTS: seq<Arg> := [
    Arg("packages/prompt/task-template-rpc"),
    Arg("packages/client/ui-task-template"),
    Arg("packages/orchestration/orchestration-local"),
    Arg("packages/orchestration/tool-debate"),
    Arg("packages/orchestration/tool-orchestration"),
    Arg("packages/physical-operator/tool-physical-operator")
  ]

  const HOST_CONFIG := Arg("tsconfig.host.json")

  /** The components of a pure path, without empty ones and dots. */
  function Components(path: string, current: string := ""): seq<string> {
    if path == "" then Component(current)
    else if path[0] == '/' then Component(current) + Components(path[1..])
    else Components(path[1..], current + [path[0]])
  }

  function Component(name: string): seq<string> {
    if name == "" || name == "." then [] else [name]
  }

  predicate IsTsc(executable: Arg) {
    var parts := Components(executable.text);
    |parts| >= 2 && parts[|parts| - 1] == "tsc" && parts[|parts| - 2] == ".bin"
  }

  predicate IsBuild(c: Command) {
    |c| >= 3 && IsTsc(c[0]) && c[1] == Arg("-b")
  }

  predicate IsClientBuild(c: Command) {
    IsBuild(c) && c[2..] == CLIENT_PROJECTS
  }

  predicate IsHostTypes(c: Command) {
    HOST_CONFIG in c
  }

  predicate IsHostBundle(c: Command) {
    || Arg("DSH_BUILD_FACE=host") in c || Arg("--env.DSH_BUILD_FACE=host") in c
    || exists k | 0 <= k < |c| - 1 :: c[k] == Arg("--env.DSH_BUILD_FACE") && c[k + 1] == Arg("host")
  }

  /** A command that lets the search go on. */
  predicate Passes(c: Command) {
    c != [] && !IsHostTypes(c) && !IsHostBundle(c) && (IsBuild(c) ==> IsClientBuild(c))
  }

  /** No Host prerequisite yet, and one Client build, at `i`, and no other. */
  predicate OnlyBuildAt(commands: seq<Command>, i: nat) {
    && i < |commands| && (forall k | 0 <= k < |commands| :: Passes(commands[k]))
    && forall k | 0 <= k < |commands| :: IsBuild(commands[k]) <==> k == i
  }

  function Builds(commands: seq<Command>, n: nat): (r: seq<nat>)
    requires n <= |commands|
    ensures forall k | 0 <= k < |r| :: r[k] < n
  {
    if n == 0 then [] else Builds(commands, n - 1) + if IsBuild(commands[n - 1]) then [n - 1] else []
  }

  function ClientIndex(commands: seq<Command>): Option<nat> {
    var builds := Builds(commands, |commands|);
    if (forall k | 0 <= k < |commands| :: Passes(commands[k])) && |builds| == 1 then Some(builds[0]) else None
  }

  lemma {:induction false} BuildsMean(commands: seq<Command>, n: nat, k: nat)
    requires k < n <= |commands|
    ensures k in Builds(commands, n) <==> IsBuild(commands[k])
  {
    if k < n - 1 {
      BuildsMean(commands, n - 1, k);
    }
  }

  lemma {:induction false} OneBuild(commands: seq<Command>, n: nat, i: nat)
    requires i < n <= |commands| && forall k | 0 <= k < n :: IsBuild(commands[k]) <==> k == i
    ensures Builds(commands, n) == [i]
  {
    if i < n - 1 {
      OneBuild(commands, n - 1, i);
    } else {
      NoBuild(commands, n - 1);
    }
  }

  lemma {:induction false} NoBuild(commands: seq<Command>, n: nat)
    requires n <= |commands| && forall k | 0 <= k < n :: !IsBuild(commands[k])
    ensures Builds(commands, n) == []
  {
    if n > 0 {
      NoBuild(commands, n - 1);
    }
  }

  /** The search finds the Client build exactly when it is the only build, with the fixed
      projects, and no command is a Host prerequisite. */
  lemma ClientIndexMeans(commands: seq<Command>, i: nat)
    ensures ClientIndex(commands) == Some(i) <==> OnlyBuildAt(commands, i)
  {
    if ClientIndex(commands) == Some(i) {
      forall k: nat | k < |commands|
        ensures IsBuild(commands[k]) <==> k == i
      {
        BuildsMean(commands, |commands|, k);
      }
    }
    if OnlyBuildAt(commands, i) {
      OneBuild(commands, |commands|, i);
    }
  }

  /** `_client_tsc_index`; `None` is a refusal. */
  method ClientTscIndex(commands: seq<Command>) returns (r: Option<nat>)
    ensures r == ClientIndex(commands)
  {
    var matches: seq<nat> := [];
    for index := 0 to |commands|
      invariant forall k | 0 <= k < index :: Passes(commands[k])
      invariant matches == Builds(commands, index)
    {
      var c := commands[index];
      if !Passes(c) {
        return None;
      }
      if IsBuild(c) {
        matches := matches + [index];
      }
    }
    r := if |matches| == 1 then Some(matches[0]) else None;
  }

  /** All of a contract but its acceptance commands. */
  datatype Terms = Terms(text: string)

  datatype Contract = Contract(terms: Terms, commands: seq<Command>)

  /** What a plan takes from the worktree and the runtime: `ready` when all files that it binds
      are there, the Node binary, and the terms as they are written back. */
  datatype Tools = Tools(ready: bool, node: Arg, normalized: Terms -> Terms)

  function HostTypes(node: Arg): Command {
    [node, Arg("node_modules/typescript/bin/tsc"), Arg("-b"), HOST_CONFIG]
  }

  function HostBundle(node: Arg): Command {
    [node, Arg("node_modules/tsdown/dist/run.mjs"), Arg("--env.DSH_BUILD_FACE"), Arg("host")]
  }

  /** `_plan`: the amended contract. */
  function Plan(contract: Contract, tools: Tools): Option<Contract> {
    var i := ClientIndex(contract.commands);
    if !tools.ready || i.None? || tools.normalized(contract.terms) != contract.terms then None
    else
      Some(Contract(tools.normalized(contract.terms),
                    contract.commands[..i.value] + [HostTypes(tools.node), HostBundle(tools.node)]
                    + contract.commands[i.value..]))
  }

  /** The two Host commands, right before the one Client build at `i`; the rest as it was. */
  ghost predicate InsertedAt(old': seq<Command>, new': seq<Command>, node: Arg, i: nat) {
    && OnlyBuildAt(old', i) && |new'| == |old'| + 2
    && new'[..i] == old'[..i] && new'[i + 2..] == old'[i..]
    && new'[i] == HostTypes(node) && new'[i + 1] == HostBundle(node) && IsClientBuild(new'[i + 2])
  }

  /** A plan keeps the terms and all commands, and puts the two Host commands right before
      the one Client build. */
  lemma PlanInserts(contract: Contract, tools: Tools)
    requires Plan(contract, tools).Some?
    ensures var new' := Plan(contract, tools).value;
            && new'.terms == contract.terms
            && exists i :: InsertedAt(contract.commands, new'.commands, tools.node, i)
  {
    var i := ClientIndex(contract.commands).value;
    ClientIndexMeans(contract.commands, i);
    var commands, new' := contract.commands, Plan(contract, tools).value.commands;
    assert new'[..i] == commands[..i] && new'[i + 2..] == commands[i..];
    assert new'[i + 2] == commands[i];
    assert InsertedAt(commands, new', tools.node, i);
  }

  predicate Amended(commands: seq<Command>) {
    exists k | 0 <= k < |commands| :: IsHostTypes(commands[k])
  }

  lemma PlanAmends(contract: Contract, tools: Tools)
    requires Plan(contract, tools).Some?
    ensures Amended(Plan(contract, tools).value.commands) && !Amended(contract.commands)
  {
    var i := ClientIndex(contract.commands).value;
    var new' := Plan(contract, tools).value;
    assert new'.commands[i] == HostTypes(tools.node) && HostTypes(tools.node)[3] == HOST_CONFIG;
    assert IsHostTypes(new'.commands[i]);
  }

  /** No plan is made for an amended contract. */
  lemma PlanOnce(contract: Contract, first: Tools, second: Tools)
    requires Plan(contract, first).Some?
    ensures Plan(Plan(contract, first).value, second) == None
  {
    PlanAmends(contract, first);
    if Plan(Plan(contract, first).value, second).Some? {
      PlanAmends(Plan(contract, first).value, second);
    }
  }

  datatype Task = Task(blocked: bool, revision: nat, contract: Contract)

  /** All else that a request is fenced by: the node, its attempt, allocations, approvals, holds. */
  datatype Fence = Fence(admits: bool, facts: int)

  datatype Binding = Binding(task: Task, fence: Fence)
  datatype Fingerprint = Fingerprint(binding: Binding, plan: Contract)
  datatype Request = Request(revision: nat, contract: Contract, dryRun: bool, fingerprint: Option<Fingerprint>)

  /** How far a request has come, each between two accesses to the store. */
  datatype Phase =
    | Waiting
    | Snapped(before: Binding)
    | Planned(before: Binding, tools: Tools, plan: Contract)
    | Checked(before: Binding, tools: Tools, plan: Contract)
    | Previewed(plan: Contract)
    | Refused
    | Committed

  datatype Event = Event(old': Contract, new': Contract, revision: nat)

  datatype State = State(task: Task, fence: Fence, requests: seq<Request>, phases: seq<Phase>, events: seq<Event>)

  /** `_candidate`. */
  function Candidate(task: Task, fence: Fence, request: Request): Option<Binding> {
    if task.revision == request.revision && task.contract == request.contract && task.blocked && fence.admits
    then Some(Binding(task, fence)) else None
  }

  /** A request takes its next step, or something outside changes the task, its node or its
      allocations, but not its acceptance commands. */
  datatype Step = Advance(i: nat, tools: Tools) | Outside(task: Task, fence: Fence)

  function Next(s: State, step: Step): State
    requires |s.requests| == |s.phases|
  {
    match step
    case Outside(task, fence) =>
      if task.contract.commands == s.task.contract.commands then s.(task := task, fence := fence) else s
    case Advance(i, tools) =>
      if i >= |s.phases| then s
      else
        var request, now := s.requests[i], Candidate(s.task, s.fence, s.requests[i]);
        match s.phases[i]
        case Waiting => s.(phases := s.phases[i := if now.Some? then Snapped(now.value) else Refused])
        case Snapped(before) =>
          var plan := Plan(before.task.contract, tools);
          s.(phases := s.phases[i := if plan.Some? then Planned(before, tools, plan.value) else Refused])
        case Planned(before, tools', plan) =>
          s.(phases := s.phases[i :=
             if now != Some(before) then Refused
             else if request.dryRun then Previewed(plan)
             else if request.fingerprint == Some(Fingerprint(before, plan)) then Checked(before, tools', plan)
             else Refused])
        case Checked(before, _, plan) =>
          if now != Some(before) then s.(phases := s.phases[i := Refused])
          else
            s.(task := Task(true, request.revision + 1, plan),
               phases := s.phases[i := Committed],
               events := s.events + [Event(before.task.contract, plan, request.revision + 1)])
        case _ => s
  }

  function Run(s: State, steps: seq<Step>): (r: State)
    requires |s.requests| == |s.phases|
    ensures |r.requests| == |r.phases|
  {
    if steps == [] then s else Next(Run(s, steps[..|steps| - 1]), steps[|steps| - 1])
  }

  /** The plan a request holds is one for the contract it saw; past the check it is the plan
      whose preview was asked for. */
  predicate Holds(phase: Phase, request: Request) {
    match phase
    case Planned(before, tools, plan) => Plan(before.task.contract, tools) == Some(plan)
    case Checked(before, tools, plan) =>
      && Plan(before.task.contract, tools) == Some(plan)
      && !request.dryRun && request.fingerprint == Some(Fingerprint(before, plan))
    case _ => true
  }

  predicate Inv(s: State) {
    && |s.requests| == |s.phases| && (forall i | 0 <= i < |s.phases| :: Holds(s.phases[i], s.requests[i]))
    && |s.events| <= 1 && (s.events != [] ==> Amended(s.task.contract.commands))
  }

  /** What the commit of one request does: it is no dry run, it expects the row and the plan
      as they are, nothing fences it off. */
  ghost predicate Commits(s: State, next: State, request: Request) {
    && !request.dryRun && Candidate(s.task, s.fence, request).Some?
    && request.fingerprint == Some(Fingerprint(Binding(s.task, s.fence), next.task.contract))
    && exists tools: Tools ::
      && Plan(s.task.contract, tools) == Some(next.task.contract)
      && next.task == Task(true, s.task.revision + 1, next.task.contract) && s.task.blocked
      && next.fence == s.fence
      && next.events == s.events + [Event(s.task.contract, next.task.contract, s.task.revision + 1)]
  }

  /** A step keeps the invariant; it leaves the acceptance commands alone or commits the plan
      for the contract as it stands. */
  lemma StepKeeps(s: State, step: Step)
    requires Inv(s)
    ensures Inv(Next(s, step))
    ensures var next := Next(s, step);
            || (exists request :: request in s.requests && Commits(s, next, request))
            || (next.events == s.events && next.task.contract.commands == s.task.contract.commands)
  {
    match step
    case Outside(_, _) =>
    case Advance(i, tools) =>
      if i < |s.phases| && s.phases[i].Checked? {
        CheckedKeeps(s, i, tools);
        assert s.requests[i] in s.requests;
      }
  }

  lemma CheckedKeeps(s: State, i: nat, tools: Tools)
    requires Inv(s) && i < |s.phases| && s.phases[i].Checked?
    ensures var next := Next(s, Advance(i, tools));
            && Inv(next)
            && (Commits(s, next, s.requests[i]) || (next.events == s.events && next.task == s.task))
  {
    var Checked(before, used, plan) := s.phases[i];
    assert Holds(s.phases[i], s.requests[i]);
    if Candidate(s.task, s.fence, s.requests[i]) == Some(before) {
      PlanAmends(before.task.contract, used);
      assert s.events == [];
    }
  }

  /** Over every interleaving of requests and outside changes, at most one request commits. */
  lemma {:induction false} AtMostOneCommit(s: State, steps: seq<Step>)
    requires |s.requests| == |s.phases| && s.events == []
    requires forall i | 0 <= i < |s.phases| :: s.phases[i] == Waiting
    ensures Inv(Run(s, steps)) && |Run(s, steps).events| <= 1
    ensures Run(s, steps).events == [] ==> Run(s, steps).task.contract.commands == s.task.contract.commands
    ensures Run(s, steps).events != [] ==>
              && Run(s, steps).events[0].old'.commands == s.task.contract.commands
              && Run(s, steps).events[0].new'.commands == Run(s, steps).task.contract.commands
              && Run(s, steps).events[0].new'.terms == Run(s, steps).events[0].old'.terms
  {
    if steps != [] {
      var before := Run(s, steps[..|steps| - 1]);
      AtMostOneCommit(s, steps[..|steps| - 1]);
      StepKeeps(before, steps[|steps| - 1]);
      if request :| request in before.requests && Commits(before, Next(before, steps[|steps| - 1]), request) {
        var tools: Tools :| Plan(before.task.contract, tools) == Some(Next(before, steps[|steps| - 1]).task.contract);
        PlanInserts(before.task.contract, tools);
      }
    }
  }
}
