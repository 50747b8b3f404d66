/**
 * Trireme's platform installer: the order in which `kubectl create -f` and
 * `kubectl delete -f` are issued over the manifests of the platform's
 * components. Each invocation is appended to the trace of a `Kubectl`
 * object; whether it fails is decided by that object's `failing` oracle.
 * `filepath.Join(dir, file)` is kept as the pair `(dir, file)`.
 */
module Platform {
  import opened Wrappers

  datatype Op = Create | Delete

  /** One kubectl invocation on the manifest `file` under `dir`. */
  datatype Command = Command(op: Op, dir: string, file: string)

  /** A failed invocation, or the summary error of a deletion that did not finish. */
  datatype Error = CommandFailed(cmd: Command) | IncompleteDeletion

  /** The error an invocation's failure is reported as. */
  function AsError(failed: Option<Command>): (err: Option<Error>)
    ensures err.None? <==> failed.None?
    ensures failed.Some? ==> err == Some(CommandFailed(failed.value))
  {
    match failed
    case None => None
    case Some(c) => Some(CommandFailed(c))
  }

  // ---------------------------------------------------------------------------
  // Fail-fast issuing, on values
  // ---------------------------------------------------------------------------

  /** The invocations of one `for` loop: the manifests in list order, each joined with `dir`. */
  function Commands(op: Op, dir: string, files: seq<string>): seq<Command>
  {
    seq(|files|, i requires 0 <= i < |files| => Command(op, dir, files[i]))
  }

  /** The first invocation of `cmds` that fails, if any. */
  function FirstRejected(cmds: seq<Command>, failing: iset<Command>): Option<Command>
  {
    if cmds == [] then None
    else if cmds[0] in failing then Some(cmds[0])
    else FirstRejected(cmds[1..], failing)
  }

  /** What is issued of `cmds` when issuing stops at the first failure, that one included. */
  function FailFast(cmds: seq<Command>, failing: iset<Command>): seq<Command>
  {
    if cmds == [] then []
    else if cmds[0] in failing then [cmds[0]]
    else [cmds[0]] + FailFast(cmds[1..], failing)
  }

  /** The first failure is a failing invocation of `cmds`, and there is none iff every invocation succeeds. */
  lemma {:induction false} FirstRejectedIsFailure(cmds: seq<Command>, failing: iset<Command>)
    ensures FirstRejected(cmds, failing).Some? ==> FirstRejected(cmds, failing).value in cmds && FirstRejected(cmds, failing).value in failing
    ensures FirstRejected(cmds, failing).None? <==> forall i :: 0 <= i < |cmds| ==> cmds[i] !in failing
  {
    if cmds != [] && cmds[0] !in failing {
      FirstRejectedIsFailure(cmds[1..], failing);
      assert forall i :: 1 <= i < |cmds| ==> cmds[i] == cmds[1..][i - 1];
    }
  }

  /** What is issued is a prefix of `cmds`: all of it without a failure, else ending at the first failure. */
  lemma {:induction false} FailFastIsPrefix(cmds: seq<Command>, failing: iset<Command>)
    ensures var issued := FailFast(cmds, failing);
            && |issued| <= |cmds| && issued == cmds[..|issued|]
            && (FirstRejected(cmds, failing).None? ==> issued == cmds)
            && (FirstRejected(cmds, failing).Some? ==> issued != [] && issued[|issued| - 1] == FirstRejected(cmds, failing).value)
  {
    if cmds != [] && cmds[0] !in failing {
      FailFastIsPrefix(cmds[1..], failing);
      var rest := FailFast(cmds[1..], failing);
      assert cmds[..|rest| + 1] == [cmds[0]] + cmds[1..][..|rest|];
    }
  }

  /** Without a failure, fail-fast issuing issues everything. */
  lemma {:induction false} FailFastComplete(cmds: seq<Command>, failing: iset<Command>)
    requires FirstRejected(cmds, failing).None?
    ensures FailFast(cmds, failing) == cmds
  {
    if cmds != [] {
      FailFastComplete(cmds[1..], failing);
    }
  }

  /**
   * Fail-fast issuing stops exactly at the first failing invocation: every
   * earlier one succeeded, it is the last one issued, and nothing after it is.
   */
  lemma {:induction false} FailFastStopsAtFirstFailure(cmds: seq<Command>, failing: iset<Command>)
    requires FirstRejected(cmds, failing).Some?
    ensures exists i :: && 0 <= i < |cmds|
                        && FailFast(cmds, failing) == cmds[..i + 1]
                        && cmds[i] == FirstRejected(cmds, failing).value
                        && forall j :: 0 <= j < i ==> cmds[j] !in failing
  {
    if cmds[0] !in failing {
      var rest := cmds[1..];
      FailFastStopsAtFirstFailure(rest, failing);
      var i :| && 0 <= i < |rest|
               && FailFast(rest, failing) == rest[..i + 1]
               && rest[i] == FirstRejected(rest, failing).value
               && forall j :: 0 <= j < i ==> rest[j] !in failing;
      assert cmds[..i + 2] == [cmds[0]] + rest[..i + 1];
      assert forall j :: 0 <= j < i + 1 ==> cmds[j] !in failing by {
        forall j | 0 <= j < i + 1 ensures cmds[j] !in failing {
          if j > 0 { assert cmds[j] == rest[j - 1]; }
        }
      }
    } else {
      assert cmds[..1] == [cmds[0]];
    }
  }

  /** Issuing `a` then `b` fail-fast: `b` is reached only when all of `a` succeeded. */
  lemma {:induction false} FailFastAppend(a: seq<Command>, b: seq<Command>, failing: iset<Command>)
    ensures FailFast(a + b, failing) == if FirstRejected(a, failing).Some? then FailFast(a, failing) else a + FailFast(b, failing)
    ensures FirstRejected(a + b, failing) == if FirstRejected(a, failing).Some? then FirstRejected(a, failing) else FirstRejected(b, failing)
  {
    if a == [] {
      assert a + b == b;
    } else {
      assert (a + b)[0] == a[0];
      assert (a + b)[1..] == a[1..] + b;
      FailFastAppend(a[1..], b, failing);
    }
  }

  /** Once `x` hits a failure, nothing after it is issued. */
  lemma StopsIn(x: seq<Command>, y: seq<Command>, failing: iset<Command>)
    requires FirstRejected(x, failing).Some?
    ensures FailFast(x + y, failing) == FailFast(x, failing)
    ensures FirstRejected(x + y, failing) == FirstRejected(x, failing)
  {
    FailFastAppend(x, y, failing);
  }

  /** When all of `x` succeeds, issuing carries on into `y`. */
  lemma PassesThrough(x: seq<Command>, y: seq<Command>, failing: iset<Command>)
    requires FirstRejected(x, failing).None?
    ensures FailFast(x + y, failing) == x + FailFast(y, failing)
    ensures FirstRejected(x + y, failing) == FirstRejected(y, failing)
  {
    FailFastAppend(x, y, failing);
  }

  // ---------------------------------------------------------------------------
  // What each operation issues, in order
  // ---------------------------------------------------------------------------

  /** Consecutive fail-fast loops, one per list of manifests, all with the same verb. */
  function Phases(op: Op, dir: string, groups: seq<seq<string>>): seq<Command>
    decreases |groups|
  {
    if groups == [] then []
    else Phases(op, dir, groups[..|groups| - 1]) + Commands(op, dir, groups[|groups| - 1])
  }

  /** Phases distributes over splitting the list of groups. */
  lemma {:induction false} PhasesSplit(op: Op, dir: string, a: seq<seq<string>>, b: seq<seq<string>>)
    ensures Phases(op, dir, a + b) == Phases(op, dir, a) + Phases(op, dir, b)
    decreases |b|
  {
    if b == [] {
      assert a + b == a;
    } else {
      var front := b[..|b| - 1];
      assert (a + b)[..|a + b| - 1] == a + front;
      PhasesSplit(op, dir, a, front);
    }
  }

  /** A failure in loop `i` of consecutive loops ends the issuing there. */
  lemma PhasesStop(op: Op, dir: string, groups: seq<seq<string>>, i: int, failing: iset<Command>)
    requires 0 <= i < |groups|
    requires FirstRejected(Phases(op, dir, groups[..i]), failing).None?
    requires FirstRejected(Commands(op, dir, groups[i]), failing).Some?
    ensures FailFast(Phases(op, dir, groups), failing) == Phases(op, dir, groups[..i]) + FailFast(Commands(op, dir, groups[i]), failing)
    ensures FirstRejected(Phases(op, dir, groups), failing) == FirstRejected(Commands(op, dir, groups[i]), failing)
  {
    var done, cs := Phases(op, dir, groups[..i]), Commands(op, dir, groups[i]);
    assert groups[..i + 1][..i] == groups[..i];
    assert Phases(op, dir, groups[..i + 1]) == done + cs;
    PassesThrough(done, cs, failing);
    PhasesSplit(op, dir, groups[..i + 1], groups[i + 1..]);
    assert groups[..i + 1] + groups[i + 1..] == groups;
    StopsIn(done + cs, Phases(op, dir, groups[i + 1..]), failing);
  }

  /** A component of the platform and the manifests it is made of. */
  datatype Component = Component(
    name: string, description: string,
    rcs: seq<string>, pods: seq<string>, services: seq<string>,
    namespaces: seq<string>, volumes: seq<string>, secrets: seq<string>,
    optional: bool)
  {
    /** `InstallPrereqs`: create Namespaces, Services, Volumes, Secrets, stopping at the first failure. */
    method InstallPrereqs(dir: string, k: Kubectl) returns (err: Option<Error>)
      modifies k
      ensures k.trace == old(k.trace) + FailFast(PrereqInstallPlan(this, dir), k.failing)
      ensures err == AsError(FirstRejected(PrereqInstallPlan(this, dir), k.failing))
    {
      err := k.RunPhases(Create, dir, [namespaces, services, volumes, secrets]);
      PhasesOfFour(Create, dir, namespaces, services, volumes, secrets);
    }

    /** `DeletePrereqs`: delete Secrets, Volumes, Services, Namespaces, stopping at the first failure. */
    method DeletePrereqs(dir: string, k: Kubectl) returns (err: Option<Error>)
      modifies k
      ensures k.trace == old(k.trace) + FailFast(PrereqDeletePlan(this, dir), k.failing)
      ensures err == AsError(FirstRejected(PrereqDeletePlan(this, dir), k.failing))
    {
      err := k.RunPhases(Op.Delete, dir, [secrets, volumes, services, namespaces]);
      PhasesOfFour(Op.Delete, dir, secrets, volumes, services, namespaces);
    }

    /** `Install`: create Pods, then RCs, stopping at the first failure. */
    method Install(dir: string, k: Kubectl) returns (err: Option<Error>)
      modifies k
      ensures k.trace == old(k.trace) + FailFast(InstallPlan(this, dir), k.failing)
      ensures err == AsError(FirstRejected(InstallPlan(this, dir), k.failing))
    {
      err := k.RunPhases(Create, dir, [pods, rcs]);
      PhasesOfTwo(Create, dir, pods, rcs);
    }

    /** `Delete`: delete Pods, then RCs, stopping at the first failure. */
    method Delete(dir: string, k: Kubectl) returns (err: Option<Error>)
      modifies k
      ensures k.trace == old(k.trace) + FailFast(DeletePlan(this, dir), k.failing)
      ensures err == AsError(FirstRejected(DeletePlan(this, dir), k.failing))
    {
      err := k.RunPhases(Op.Delete, dir, [pods, rcs]);
      PhasesOfTwo(Op.Delete, dir, pods, rcs);
    }
  }

  /** The prerequisites `InstallPrereqs` creates: Namespaces, Services, Volumes, Secrets. */
  function PrereqInstallPlan(c: Component, dir: string): seq<Command>
  {
    Commands(Create, dir, c.namespaces) + Commands(Create, dir, c.services)
    + Commands(Create, dir, c.volumes) + Commands(Create, dir, c.secrets)
  }

  /** The prerequisites `DeletePrereqs` deletes, in the reverse category order. */
  function PrereqDeletePlan(c: Component, dir: string): seq<Command>
  {
    Commands(Op.Delete, dir, c.secrets) + Commands(Op.Delete, dir, c.volumes)
    + Commands(Op.Delete, dir, c.services) + Commands(Op.Delete, dir, c.namespaces)
  }

  /** The workloads `Install` creates: Pods, then RCs. */
  function InstallPlan(c: Component, dir: string): seq<Command>
  {
    Commands(Create, dir, c.pods) + Commands(Create, dir, c.rcs)
  }

  /** The workloads `Delete` deletes: Pods, then RCs. */
  function DeletePlan(c: Component, dir: string): seq<Command>
  {
    Commands(Op.Delete, dir, c.pods) + Commands(Op.Delete, dir, c.rcs)
  }

  /** Four consecutive loops issue the four lists' commands one after the other. */
  lemma PhasesOfFour(op: Op, dir: string, a: seq<string>, b: seq<string>, c: seq<string>, d: seq<string>)
    ensures Phases(op, dir, [a, b, c, d]) == Commands(op, dir, a) + Commands(op, dir, b) + Commands(op, dir, c) + Commands(op, dir, d)
  {
    assert Phases(op, dir, [a]) == Commands(op, dir, a) by {
      assert [a][..0] == [];
      assert [] + Commands(op, dir, a) == Commands(op, dir, a);
    }
    assert [a, b][..1] == [a];
    assert Phases(op, dir, [a, b]) == Commands(op, dir, a) + Commands(op, dir, b);
    assert [a, b, c][..2] == [a, b];
    assert Phases(op, dir, [a, b, c]) == Commands(op, dir, a) + Commands(op, dir, b) + Commands(op, dir, c);
    assert [a, b, c, d][..3] == [a, b, c];
  }

  /** Two consecutive loops issue the two lists' commands one after the other. */
  lemma PhasesOfTwo(op: Op, dir: string, a: seq<string>, b: seq<string>)
    ensures Phases(op, dir, [a, b]) == Commands(op, dir, a) + Commands(op, dir, b)
  {
    assert Phases(op, dir, [a]) == Commands(op, dir, a) by {
      assert [a][..0] == [];
      assert [] + Commands(op, dir, a) == Commands(op, dir, a);
    }
    assert [a, b][..1] == [a];
  }

  /** Every prerequisite deletion undoes a prerequisite creation of the same component, and back. */
  lemma PrereqDeletionMirrorsCreation(c: Component, dir: string)
    ensures |PrereqDeletePlan(c, dir)| == |PrereqInstallPlan(c, dir)|
    ensures forall f :: Command(Create, dir, f) in PrereqInstallPlan(c, dir) <==> Command(Op.Delete, dir, f) in PrereqDeletePlan(c, dir)
  {
    forall f ensures Command(Create, dir, f) in PrereqInstallPlan(c, dir) <==> Command(Op.Delete, dir, f) in PrereqDeletePlan(c, dir) {
      CommandsHas(Create, dir, c.namespaces, f);
      CommandsHas(Create, dir, c.services, f);
      CommandsHas(Create, dir, c.volumes, f);
      CommandsHas(Create, dir, c.secrets, f);
      CommandsHas(Op.Delete, dir, c.namespaces, f);
      CommandsHas(Op.Delete, dir, c.services, f);
      CommandsHas(Op.Delete, dir, c.volumes, f);
      CommandsHas(Op.Delete, dir, c.secrets, f);
    }
  }

  /** A loop issues a command on `f` iff `f` is one of its manifests. */
  lemma CommandsHas(op: Op, dir: string, files: seq<string>, f: string)
    ensures Command(op, dir, f) in Commands(op, dir, files) <==> f in files
  {
    var cs := Commands(op, dir, files);
    if f in files {
      var i :| 0 <= i < |files| && files[i] == f;
      assert cs[i] == Command(op, dir, f);
    }
  }

  /** `InstallAll` takes a component iff it is not optional or optional ones are asked for. */
  function Selected(c: Component, optional: bool): (s: bool)
    ensures s <==> !c.optional || optional
  {
    (optional && c.optional) || !c.optional
  }

  /** The concatenated plans of the selected components, in list order. */
  function SelectedPlan(list: seq<Component>, dir: string, optional: bool,
                        plan: (Component, string) -> seq<Command>): seq<Command>
    decreases |list|
  {
    if list == [] then []
    else SelectedPlan(list[..|list| - 1], dir, optional, plan)
         + (if Selected(list[|list| - 1], optional) then plan(list[|list| - 1], dir) else [])
  }

  /** SelectedPlan distributes over splitting the component list. */
  lemma {:induction false} SelectedPlanSplit(a: seq<Component>, b: seq<Component>, dir: string, optional: bool,
                                             plan: (Component, string) -> seq<Command>)
    ensures SelectedPlan(a + b, dir, optional, plan) == SelectedPlan(a, dir, optional, plan) + SelectedPlan(b, dir, optional, plan)
    decreases |b|
  {
    if b == [] {
      assert a + b == a;
    } else {
      var front := b[..|b| - 1];
      assert (a + b)[..|a + b| - 1] == a + front;
      SelectedPlanSplit(a, front, dir, optional, plan);
    }
  }

  /** Everything `InstallAll` would issue: all selected prerequisites, then all selected installs. */
  function InstallAllPlan(list: seq<Component>, dir: string, optional: bool): seq<Command>
  {
    SelectedPlan(list, dir, optional, PrereqInstallPlan) + SelectedPlan(list, dir, optional, InstallPlan)
  }

  /**
   * `InstallAll` reaches an install only after the prerequisites of every
   * selected component were all issued and all succeeded.
   */
  lemma InstallsFollowAllPrereqs(list: seq<Component>, dir: string, optional: bool, failing: iset<Command>)
    ensures var pre := SelectedPlan(list, dir, optional, PrereqInstallPlan);
            var issued := FailFast(InstallAllPlan(list, dir, optional), failing);
            |issued| > |pre| ==> issued[..|pre|] == pre && FirstRejected(pre, failing).None?
  {
    var pre := SelectedPlan(list, dir, optional, PrereqInstallPlan);
    FailFastAppend(pre, SelectedPlan(list, dir, optional, InstallPlan), failing);
    FailFastIsPrefix(pre, failing);
  }

  /** The plan of every component, each cut at its own first failure, in list order. */
  function Attempts(list: seq<Component>, dir: string, failing: iset<Command>,
                    plan: (Component, string) -> seq<Command>): seq<Command>
    decreases |list|
  {
    if list == [] then []
    else Attempts(list[..|list| - 1], dir, failing, plan) + FailFast(plan(list[|list| - 1], dir), failing)
  }

  /** Some component's plan hit a failure. */
  function AnyRejected(list: seq<Component>, dir: string, failing: iset<Command>,
                       plan: (Component, string) -> seq<Command>): bool
    decreases |list|
  {
    if list == [] then false
    else AnyRejected(list[..|list| - 1], dir, failing, plan) || FirstRejected(plan(list[|list| - 1], dir), failing).Some?
  }

  /** AnyRejected holds exactly when the plan of some component of the list hits a failure. */
  lemma {:induction false} AnyRejectedMeans(list: seq<Component>, dir: string, failing: iset<Command>,
                                            plan: (Component, string) -> seq<Command>)
    ensures AnyRejected(list, dir, failing, plan) <==> exists i :: 0 <= i < |list| && FirstRejected(plan(list[i], dir), failing).Some?
    decreases |list|
  {
    if list != [] {
      var front := list[..|list| - 1];
      AnyRejectedMeans(front, dir, failing, plan);
      assert forall i :: 0 <= i < |front| ==> front[i] == list[i];
    }
  }

  /** A failure does not stop the others: the first invocation of every component's plan is issued. */
  lemma {:induction false} AttemptsReachEveryComponent(list: seq<Component>, dir: string, failing: iset<Command>,
                                                       plan: (Component, string) -> seq<Command>)
    ensures forall i :: 0 <= i < |list| && plan(list[i], dir) != [] ==> plan(list[i], dir)[0] in Attempts(list, dir, failing, plan)
    decreases |list|
  {
    if list != [] {
      var front := list[..|list| - 1];
      AttemptsReachEveryComponent(front, dir, failing, plan);
      forall i | 0 <= i < |list| && plan(list[i], dir) != []
        ensures plan(list[i], dir)[0] in Attempts(list, dir, failing, plan)
      {
        if i < |front| {
          assert list[i] == front[i];
        } else {
          var issued := FailFast(plan(list[i], dir), failing);
          assert issued[0] == plan(list[i], dir)[0];
        }
      }
    }
  }

  /** The kubectl binary: every invocation is appended to `trace`, and `failing` decides which fail. */
  class Kubectl {
    var trace: seq<Command>
    const failing: iset<Command>

    constructor (failing: iset<Command>)
      ensures trace == [] && this.failing == failing
    {
      trace := [];
      this.failing := failing;
    }

    /** `KubectlCreate` or `KubectlDelete` on `filepath.Join(dir, file)`. */
    method Run(op: Op, dir: string, file: string) returns (err: Option<Error>)
      modifies this
      ensures trace == old(trace) + [Command(op, dir, file)]
      ensures err == AsError(if Command(op, dir, file) in failing then Some(Command(op, dir, file)) else None)
    {
      trace := trace + [Command(op, dir, file)];
      err := if Command(op, dir, file) in failing then Some(CommandFailed(Command(op, dir, file))) else None;
    }

    /** One `for` loop of the platform code: run each manifest in order, returning at the first failure. */
    method RunAll(op: Op, dir: string, files: seq<string>) returns (err: Option<Error>)
      modifies this
      ensures trace == old(trace) + FailFast(Commands(op, dir, files), failing)
      ensures err == AsError(FirstRejected(Commands(op, dir, files), failing))
      ensures err.None? ==> trace == old(trace) + Commands(op, dir, files)
    {
      ghost var cs := Commands(op, dir, files);
      for i := 0 to |files|
        invariant trace == old(trace) + cs[..i]
        invariant FirstRejected(cs[..i], failing).None?
      {
        err := Run(op, dir, files[i]);
        assert cs[..i + 1] == cs[..i] + [cs[i]];
        AppendAssoc(old(trace), cs[..i], [cs[i]]);
        if err.Some? {
          assert cs == cs[..i + 1] + cs[i + 1..];
          PassesThrough(cs[..i], [cs[i]], failing);
          StopsIn(cs[..i + 1], cs[i + 1..], failing);
          return;
        }
        PassesThrough(cs[..i], [cs[i]], failing);
      }
      assert cs[..|files|] == cs;
      FailFastComplete(cs, failing);
      err := None;
    }

    /** Consecutive `for` loops, one per list of manifests: run them in order, returning at the first failure. */
    method RunPhases(op: Op, dir: string, groups: seq<seq<string>>) returns (err: Option<Error>)
      modifies this
      ensures trace == old(trace) + FailFast(Phases(op, dir, groups), failing)
      ensures err == AsError(FirstRejected(Phases(op, dir, groups), failing))
    {
      for i := 0 to |groups|
        invariant trace == old(trace) + Phases(op, dir, groups[..i])
        invariant FirstRejected(Phases(op, dir, groups[..i]), failing).None?
      {
        ghost var done, cs := Phases(op, dir, groups[..i]), Commands(op, dir, groups[i]);
        assert Phases(op, dir, groups[..i + 1]) == done + cs by {
          assert groups[..i + 1][..i] == groups[..i];
        }
        err := RunAll(op, dir, groups[i]);
        if err.Some? {
          PhasesStop(op, dir, groups, i, failing);
          AppendAssoc(old(trace), done, FailFast(cs, failing));
          return;
        }
        assert FirstRejected(done + cs, failing).None? by {
          PassesThrough(done, cs, failing);
        }
        AppendAssoc(old(trace), done, cs);
      }
      assert groups[..|groups|] == groups;
      FailFastComplete(Phases(op, dir, groups), failing);
      err := None;
    }
  }

  /** One more component of an `InstallAll` loop, after the earlier ones all succeeded. */
  lemma SelectedPass(list: seq<Component>, i: int, dir: string, optional: bool,
                     plan: (Component, string) -> seq<Command>, failing: iset<Command>, before: seq<Command>)
    requires 0 <= i < |list|
    requires FirstRejected(SelectedPlan(list[..i], dir, optional, plan), failing).None?
    requires Selected(list[i], optional) ==> FirstRejected(plan(list[i], dir), failing).None?
    ensures before + SelectedPlan(list[..i + 1], dir, optional, plan)
            == before + SelectedPlan(list[..i], dir, optional, plan) + (if Selected(list[i], optional) then plan(list[i], dir) else [])
    ensures FirstRejected(SelectedPlan(list[..i + 1], dir, optional, plan), failing).None?
  {
    assert list[..i + 1][..i] == list[..i];
    var step := if Selected(list[i], optional) then plan(list[i], dir) else [];
    assert SelectedPlan(list[..i + 1], dir, optional, plan) == SelectedPlan(list[..i], dir, optional, plan) + step;
    PassesThrough(SelectedPlan(list[..i], dir, optional, plan), step, failing);
  }

  /** The failing component of an `InstallAll` loop: issuing ends inside its plan. */
  lemma SelectedStop(list: seq<Component>, i: int, dir: string, optional: bool,
                     plan: (Component, string) -> seq<Command>, failing: iset<Command>)
    requires 0 <= i < |list| && Selected(list[i], optional)
    requires FirstRejected(SelectedPlan(list[..i], dir, optional, plan), failing).None?
    requires FirstRejected(plan(list[i], dir), failing).Some?
    ensures FailFast(SelectedPlan(list, dir, optional, plan), failing)
            == SelectedPlan(list[..i], dir, optional, plan) + FailFast(plan(list[i], dir), failing)
    ensures FirstRejected(SelectedPlan(list, dir, optional, plan), failing) == FirstRejected(plan(list[i], dir), failing)
  {
    var done := SelectedPlan(list[..i], dir, optional, plan);
    var step := plan(list[i], dir);
    var rest := SelectedPlan(list[i + 1..], dir, optional, plan);
    assert list[..i + 1][..i] == list[..i];
    SelectedPlanSplit(list[..i + 1], list[i + 1..], dir, optional, plan);
    assert list[..i + 1] + list[i + 1..] == list;
    PassesThrough(done, step, failing);
    StopsIn(done + step, rest, failing);
  }

  /** The first loop of `InstallAll`: `InstallPrereqs` for each selected component, returning the first error. */
  method InstallSelectedPrereqs(list: seq<Component>, dir: string, optional: bool, k: Kubectl) returns (err: Option<Error>)
    modifies k
    ensures k.trace == old(k.trace) + FailFast(SelectedPlan(list, dir, optional, PrereqInstallPlan), k.failing)
    ensures err == AsError(FirstRejected(SelectedPlan(list, dir, optional, PrereqInstallPlan), k.failing))
  {
    for i := 0 to |list|
      invariant k.trace == old(k.trace) + SelectedPlan(list[..i], dir, optional, PrereqInstallPlan)
      invariant FirstRejected(SelectedPlan(list[..i], dir, optional, PrereqInstallPlan), k.failing).None?
    {
      var item := list[i];
      if (optional && item.optional) || !item.optional {
        err := item.InstallPrereqs(dir, k);
        if err.Some? {
          SelectedStop(list, i, dir, optional, PrereqInstallPlan, k.failing);
          AppendAssoc(old(k.trace), SelectedPlan(list[..i], dir, optional, PrereqInstallPlan), FailFast(PrereqInstallPlan(item, dir), k.failing));
          return;
        }
        FailFastComplete(PrereqInstallPlan(item, dir), k.failing);
      }
      SelectedPass(list, i, dir, optional, PrereqInstallPlan, k.failing, old(k.trace));
    }
    assert list[..|list|] == list;
    FailFastComplete(SelectedPlan(list, dir, optional, PrereqInstallPlan), k.failing);
    err := None;
  }

  /** The second loop of `InstallAll`: `Install` for each selected component, returning the first error. */
  method InstallSelected(list: seq<Component>, dir: string, optional: bool, k: Kubectl) returns (err: Option<Error>)
    modifies k
    ensures k.trace == old(k.trace) + FailFast(SelectedPlan(list, dir, optional, InstallPlan), k.failing)
    ensures err == AsError(FirstRejected(SelectedPlan(list, dir, optional, InstallPlan), k.failing))
  {
    for i := 0 to |list|
      invariant k.trace == old(k.trace) + SelectedPlan(list[..i], dir, optional, InstallPlan)
      invariant FirstRejected(SelectedPlan(list[..i], dir, optional, InstallPlan), k.failing).None?
    {
      var item := list[i];
      if (optional && item.optional) || !item.optional {
        err := item.Install(dir, k);
        if err.Some? {
          SelectedStop(list, i, dir, optional, InstallPlan, k.failing);
          AppendAssoc(old(k.trace), SelectedPlan(list[..i], dir, optional, InstallPlan), FailFast(InstallPlan(item, dir), k.failing));
          return;
        }
        FailFastComplete(InstallPlan(item, dir), k.failing);
      }
      SelectedPass(list, i, dir, optional, InstallPlan, k.failing, old(k.trace));
    }
    assert list[..|list|] == list;
    FailFastComplete(SelectedPlan(list, dir, optional, InstallPlan), k.failing);
    err := None;
  }

  /**
   * `InstallAll`: the prerequisites of every selected component, then the
   * installs of every selected component, returning the first error.
   */
  method InstallAll(list: seq<Component>, dir: string, optional: bool, k: Kubectl) returns (err: Option<Error>)
    modifies k
    ensures k.trace == old(k.trace) + FailFast(InstallAllPlan(list, dir, optional), k.failing)
    ensures err == AsError(FirstRejected(InstallAllPlan(list, dir, optional), k.failing))
  {
    ghost var pre := SelectedPlan(list, dir, optional, PrereqInstallPlan);
    ghost var ins := SelectedPlan(list, dir, optional, InstallPlan);
    err := InstallSelectedPrereqs(list, dir, optional, k);
    if err.Some? {
      StopsIn(pre, ins, k.failing);
      return;
    }
    FailFastComplete(pre, k.failing);
    PassesThrough(pre, ins, k.failing);
    ghost var mid := k.trace;
    err := InstallSelected(list, dir, optional, k);
    assert k.trace == mid + FailFast(ins, k.failing);
    AppendAssoc(old(k.trace), pre, FailFast(ins, k.failing));
  }

  /** The first loop of `DeleteAll`: `Delete` for every component, carrying on past failures. */
  method DeleteComponents(list: seq<Component>, dir: string, k: Kubectl) returns (incomplete: bool)
    modifies k
    ensures k.trace == old(k.trace) + Attempts(list, dir, k.failing, DeletePlan)
    ensures incomplete == AnyRejected(list, dir, k.failing, DeletePlan)
  {
    incomplete := false;
    for i := 0 to |list|
      invariant k.trace == old(k.trace) + Attempts(list[..i], dir, k.failing, DeletePlan)
      invariant incomplete == AnyRejected(list[..i], dir, k.failing, DeletePlan)
    {
      assert list[..i + 1][..i] == list[..i];
      AppendAssoc(old(k.trace), Attempts(list[..i], dir, k.failing, DeletePlan), FailFast(DeletePlan(list[i], dir), k.failing));
      var e := list[i].Delete(dir, k);
      if e.Some? {
        incomplete := true;
      }
    }
    assert list[..|list|] == list;
  }

  /** The second loop of `DeleteAll`: `DeletePrereqs` for every component, carrying on past failures. */
  method DeleteComponentPrereqs(list: seq<Component>, dir: string, k: Kubectl) returns (incomplete: bool)
    modifies k
    ensures k.trace == old(k.trace) + Attempts(list, dir, k.failing, PrereqDeletePlan)
    ensures incomplete == AnyRejected(list, dir, k.failing, PrereqDeletePlan)
  {
    incomplete := false;
    for i := 0 to |list|
      invariant k.trace == old(k.trace) + Attempts(list[..i], dir, k.failing, PrereqDeletePlan)
      invariant incomplete == AnyRejected(list[..i], dir, k.failing, PrereqDeletePlan)
    {
      assert list[..i + 1][..i] == list[..i];
      AppendAssoc(old(k.trace), Attempts(list[..i], dir, k.failing, PrereqDeletePlan), FailFast(PrereqDeletePlan(list[i], dir), k.failing));
      var e := list[i].DeletePrereqs(dir, k);
      if e.Some? {
        incomplete := true;
      }
    }
    assert list[..|list|] == list;
  }

  /**
   * `DeleteAll`: `Delete` for every component, then `DeletePrereqs` for every
   * component, carrying on past failures; "Incomplete deletion" iff any failed.
   */
  method DeleteAll(list: seq<Component>, dir: string, k: Kubectl) returns (err: Option<Error>)
    modifies k
    ensures k.trace == old(k.trace) + Attempts(list, dir, k.failing, DeletePlan) + Attempts(list, dir, k.failing, PrereqDeletePlan)
    ensures err.Some? <==> AnyRejected(list, dir, k.failing, DeletePlan) || AnyRejected(list, dir, k.failing, PrereqDeletePlan)
    ensures err.Some? ==> err == Some(IncompleteDeletion)
  {
    var workloads := DeleteComponents(list, dir, k);
    var prereqs := DeleteComponentPrereqs(list, dir, k);
    if workloads || prereqs {
      return Some(IncompleteDeletion);
    }
    return None;
  }
}
