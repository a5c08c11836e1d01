/**
 * The layer compiler of `fs_image/compiler/compiler.py`: the map from
 * dependency targets to their output paths, and the protocol `build_image`
 * follows to apply a layer's items to its subvolume.
 *
 * The dependency graph and the items are collaborators whose code is not
 * part of this model. They appear as the values they hand the compiler
 * (the phases in order, then the ordinary items in dependency order), each
 * carrying whether its step succeeds. What the compiler does to the
 * subvolume and around it is recorded as a trace of events.
 */
module Compiler {
  import opened Wrappers

  // ---------------------------------------------------------------------
  // make_target_path_map

  datatype TargetMapError = OddLengthDependencies(targetsFollowedByPaths: seq<string>)

  /** The `k`-th target name of a `[target, path, target, path, ...]` list. */
  function TargetAt(s: seq<string>, k: nat): string
    requires 2 * k + 1 < |s|
  {
    s[2 * k]
  }

  /** The `k`-th path of a `[target, path, target, path, ...]` list. */
  function PathAt(s: seq<string>, k: nat): string
    requires 2 * k + 1 < |s|
  {
    s[2 * k + 1]
  }

  /** `dict(zip(it, it))` over an even-length list, pair by pair, later pairs overriding earlier ones. */
  function PairsToMap(s: seq<string>): map<string, string>
    requires |s| % 2 == 0
    decreases |s|
  {
    if |s| == 0 then map[] else PairsToMap(s[..|s| - 2])[s[|s| - 2] := s[|s| - 1]]
  }

  /** The pairs of the first `2 * n` elements are the first `n` pairs of the whole list. */
  lemma PairsOfFront(s: seq<string>, k: nat)
    requires 2 * k + 1 < |s| - 2
    ensures TargetAt(s[..|s| - 2], k) == TargetAt(s, k) && PathAt(s[..|s| - 2], k) == PathAt(s, k)
  {
  }

  /** Its keys are exactly the targets, the elements at even positions. */
  lemma {:induction false} PairsToMapKeys(s: seq<string>, t: string)
    requires |s| % 2 == 0
    ensures t in PairsToMap(s) <==> exists k :: 0 <= k < |s| / 2 && TargetAt(s, k) == t
    decreases |s|
  {
    if |s| > 0 {
      var front := s[..|s| - 2];
      var n := |front| / 2;
      PairsToMapKeys(front, t);
      assert TargetAt(s, n) == s[|s| - 2];
      if t in PairsToMap(front) {
        var k :| 0 <= k < n && TargetAt(front, k) == t;
        PairsOfFront(s, k);
      }
      if k :| 0 <= k < |s| / 2 && TargetAt(s, k) == t {
        if k < n {
          PairsOfFront(s, k);
        }
      }
    }
  }

  /** A target maps to the path after its last occurrence. */
  lemma {:induction false} PairsToMapLastWins(s: seq<string>, k: nat)
    requires |s| % 2 == 0 && k < |s| / 2
    requires forall j :: k < j < |s| / 2 ==> TargetAt(s, j) != TargetAt(s, k)
    ensures TargetAt(s, k) in PairsToMap(s) && PairsToMap(s)[TargetAt(s, k)] == PathAt(s, k)
    decreases |s|
  {
    var front := s[..|s| - 2];
    var n := |front| / 2;
    if k < n {
      PairsOfFront(s, k);
      assert TargetAt(s, n) != TargetAt(s, k);
      forall j | k < j < n ensures TargetAt(front, j) != TargetAt(front, k) {
        PairsOfFront(s, j);
      }
      PairsToMapLastWins(front, k);
    }
  }

  /** Repeated targets collapse, so there are at most as many keys as pairs. */
  lemma {:induction false} PairsToMapSize(s: seq<string>)
    requires |s| % 2 == 0
    ensures |PairsToMap(s)| <= |s| / 2
    decreases |s|
  {
    if |s| > 0 {
      PairsToMapSize(s[..|s| - 2]);
    }
  }

  /** `make_target_path_map`: an odd-length list is refused, an even one becomes a map. */
  function MakeTargetPathMap(args: seq<string>): (r: Result<map<string, string>, TargetMapError>)
    ensures r.Failure? <==> |args| % 2 != 0
    ensures r.Failure? ==> r.error == OddLengthDependencies(args)
    ensures r.Success? ==> |r.value| <= |args| / 2
    ensures r.Success? ==>
              forall t :: t in r.value <==> exists k :: 0 <= k < |args| / 2 && TargetAt(args, k) == t
    ensures r.Success? ==>
              forall k :: 0 <= k < |args| / 2 && LastOccurrence(args, k) ==> r.value[TargetAt(args, k)] == PathAt(args, k)
  {
    if |args| % 2 != 0 then Failure(OddLengthDependencies(args))
    else
      PairsToMapSize(args);
      assert forall t :: t in PairsToMap(args) <==> exists k :: 0 <= k < |args| / 2 && TargetAt(args, k) == t by {
        forall t { PairsToMapKeys(args, t); }
      }
      assert forall k :: 0 <= k < |args| / 2 && LastOccurrence(args, k) ==>
               TargetAt(args, k) in PairsToMap(args) && PairsToMap(args)[TargetAt(args, k)] == PathAt(args, k) by {
        forall k | 0 <= k < |args| / 2 && LastOccurrence(args, k) { PairsToMapLastWins(args, k); }
      }
      Success(PairsToMap(args))
  }

  /** Pair `k` holds the last occurrence of its target. */
  predicate LastOccurrence(args: seq<string>, k: nat)
    requires |args| % 2 == 0 && k < |args| / 2
  {
    forall j :: k < j < |args| / 2 ==> TargetAt(args, j) != TargetAt(args, k)
  }

  // ---------------------------------------------------------------------
  // build_image

  /** `stat.S_IXUSR`: execute permission for the owner. */
  const UserExecuteBit: bv32 := 0x40

  /** The calling process, as far as `build_image` looks at it. */
  class Process {
    var umask: bv32

    constructor (umask: bv32)
      ensures this.umask == umask
    {
      this.umask := umask;
    }
  }

  /** `os.umask(mask)`: installs `mask` and returns the mask it replaced. */
  method SetUmask(process: Process, mask: bv32) returns (previous: bv32)
    modifies process
    ensures previous == old(process.umask) && process.umask == mask
  {
    previous := process.umask;
    process.umask := mask;
  }

  /** Reads the umask the only way POSIX allows, by setting it and putting it back. */
  method ProbeUmask(process: Process) returns (current: bv32)
    modifies process
    ensures current == old(process.umask)
    ensures process.umask == old(process.umask)
  {
    current := SetUmask(process, 0);
    var _ := SetUmask(process, current);
  }

  /** One entry of `ordered_phases()`: a builder factory with its items, and how its two steps go. */
  datatype Phase = Phase(maker: string, items: seq<string>, validates: bool, applies: bool)

  /** One ordinary item as `gen_dependency_order_items` yields it, and whether its `build` succeeds. */
  datatype Item = Item(name: string, builds: bool)

  /**
   * What the generator `gen_dependency_order_items` produces when it is
   * consumed: the items it yields in dependency order, then possibly the
   * error it raises instead of yielding the next one.
   */
  datatype ItemOrder = ItemOrder(items: seq<Item>, error: Option<string>)

  /**
   * The dependency graph: its construction fails, or it offers the phases
   * and, once they have run, the ordinary items in dependency order.
   */
  datatype DependencyGraph = DependencyGraph(phases: seq<Phase>, order: ItemOrder)

  /** What `build_image` does, in order: indices refer to the phase and item lists. */
  datatype Event =
    | MakeBuilder(phase: nat)
    | RunBuilder(phase: nat)
    | BuildItem(item: nat)
    | SetReadonly
    | UnwindExitStack

  datatype BuildError =
    | PathologicalUmask(umask: bv32)
    | GraphError(message: string)
    | InvalidPhase(phase: nat)
    | PhaseFailed(phase: nat)
    | ItemFailed(item: nat)

  /** The layer's subvolume: its read-only flag and the trace of what was done to and around it. */
  class Subvol {
    var readonly: bool
    var trace: seq<Event>

    constructor ()
      ensures !readonly && trace == []
    {
      readonly := false;
      trace := [];
    }

    method Record(e: Event)
      modifies this
      ensures trace == old(trace) + [e] && readonly == old(readonly)
    {
      trace := trace + [e];
    }

    /** `subvol.set_readonly(True)` */
    method MarkReadonly()
      modifies this
      ensures readonly && trace == old(trace) + [SetReadonly]
    {
      readonly := true;
      trace := trace + [SetReadonly];
    }
  }

  /** The position of the first `false`, or the length when all are `true`. */
  function FirstFalse(oks: seq<bool>): (k: nat)
    ensures k <= |oks|
    ensures forall j :: 0 <= j < k ==> oks[j]
    ensures k < |oks| ==> !oks[k]
    decreases |oks|
  {
    if |oks| == 0 then 0
    else if !oks[0] then 0
    else 1 + FirstFalse(oks[1..])
  }

  /** The first failure is where the first `false` stands. */
  lemma FirstFalseAt(oks: seq<bool>, k: nat)
    requires k <= |oks| && forall j :: 0 <= j < k ==> oks[j]
    requires k < |oks| ==> !oks[k]
    ensures FirstFalse(oks) == k
  {
  }

  function Validations(phases: seq<Phase>): (r: seq<bool>)
    ensures |r| == |phases| && forall i :: 0 <= i < |phases| ==> r[i] == phases[i].validates
  {
    seq(|phases|, i requires 0 <= i < |phases| => phases[i].validates)
  }

  function Applications(phases: seq<Phase>): (r: seq<bool>)
    ensures |r| == |phases| && forall i :: 0 <= i < |phases| ==> r[i] == phases[i].applies
  {
    seq(|phases|, i requires 0 <= i < |phases| => phases[i].applies)
  }

  function Builds(items: seq<Item>): (r: seq<bool>)
    ensures |r| == |items| && forall i :: 0 <= i < |items| ==> r[i] == items[i].builds
  {
    seq(|items|, i requires 0 <= i < |items| => items[i].builds)
  }

  function MakeEvents(n: nat): (r: seq<Event>)
    ensures |r| == n && forall i :: 0 <= i < n ==> r[i] == MakeBuilder(i)
  {
    seq(n, i requires 0 <= i < n => MakeBuilder(i))
  }

  function RunEvents(n: nat): (r: seq<Event>)
    ensures |r| == n && forall i :: 0 <= i < n ==> r[i] == RunBuilder(i)
  {
    seq(n, i requires 0 <= i < n => RunBuilder(i))
  }

  function BuildEvents(n: nat): (r: seq<Event>)
    ensures |r| == n && forall i :: 0 <= i < n ==> r[i] == BuildItem(i)
  {
    seq(n, i requires 0 <= i < n => BuildItem(i))
  }

  datatype Run = Run(trace: seq<Event>, outcome: Outcome<BuildError>)

  /**
   * The run `build_image` performs for a given umask and dependency graph.
   * The umask check comes before the exit stack is entered; every later
   * failure stops the run at the failing step and unwinds the stack. Each
   * step that fails is in the trace, as the attempt that raised.
   */
  function Protocol(umask: bv32, graph: Result<DependencyGraph, string>): Run {
    if umask & UserExecuteBit != 0 then Run([], Fail(PathologicalUmask(umask)))
    else
      var inside := InsideExitStack(graph);
      Run(inside.trace + [UnwindExitStack], inside.outcome)
  }

  /** What happens inside the exit stack, before it unwinds. */
  function InsideExitStack(graph: Result<DependencyGraph, string>): Run {
    match graph
    case Failure(message) => Run([], Fail(GraphError(message)))
    case Success(g) =>
      var phased := PhasesRun(g.phases);
      if phased.outcome.Fail? then phased
      else
        var rest := AfterPhases(g.order);
        Run(phased.trace + rest.trace, rest.outcome)
  }

  /** All builders constructed, then all run, each stage stopping at its first failure. */
  function PhasesRun(phases: seq<Phase>): Run {
    var n := |phases|;
    var invalid := FirstFalse(Validations(phases));
    if invalid < n then Run(MakeEvents(invalid + 1), Fail(InvalidPhase(invalid)))
    else
      var failed := FirstFalse(Applications(phases));
      if failed < n then Run(MakeEvents(n) + RunEvents(failed + 1), Fail(PhaseFailed(failed)))
      else Run(MakeEvents(n) + RunEvents(n), Pass)
  }

  /**
   * What happens once every phase has run: the ordinary items one at a
   * time as the generator yields them, then the read-only flag. An error
   * the generator raises comes after every item it yielded was built.
   */
  function AfterPhases(order: ItemOrder): Run {
    var items := order.items;
    var broken := FirstFalse(Builds(items));
    if broken < |items| then Run(BuildEvents(broken + 1), Fail(ItemFailed(broken)))
    else if order.error.Some? then Run(BuildEvents(|items|), Fail(GraphError(order.error.value)))
    else Run(BuildEvents(|items|) + [SetReadonly], Pass)
  }

  // Properties of the protocol

  /** The umask is checked first: a pathological one touches nothing, a sane one always unwinds the stack, last and once. */
  lemma UmaskCheckedFirst(umask: bv32, graph: Result<DependencyGraph, string>)
    ensures var r := Protocol(umask, graph);
            umask & UserExecuteBit != 0 <==> r.outcome == Fail(PathologicalUmask(umask))
    ensures var r := Protocol(umask, graph);
            umask & UserExecuteBit != 0 ==> r.trace == []
    ensures var r := Protocol(umask, graph);
            umask & UserExecuteBit == 0 ==>
              |r.trace| > 0 && r.trace[|r.trace| - 1] == UnwindExitStack
              && UnwindExitStack !in r.trace[..|r.trace| - 1]
  {
    if umask & UserExecuteBit == 0 {
      var inside := InsideExitStack(graph);
      assert UnwindExitStack !in inside.trace by {
        match graph
        case Failure(_) =>
        case Success(g) =>
          var phased := PhasesRun(g.phases);
          assert UnwindExitStack !in phased.trace;
          if phased.outcome.Pass? {
            assert UnwindExitStack !in AfterPhases(g.order).trace;
          }
      }
      var t := Protocol(umask, graph).trace;
      assert t[..|t| - 1] == inside.trace;
    }
  }

  /** The subvolume is made read-only exactly when the build succeeds, just before the stack unwinds. */
  lemma ReadonlyOnlyOnSuccess(umask: bv32, graph: Result<DependencyGraph, string>)
    ensures var r := Protocol(umask, graph);
            SetReadonly in r.trace <==> r.outcome == Pass
    ensures var r := Protocol(umask, graph);
            r.outcome == Pass ==> |r.trace| >= 2 && r.trace[|r.trace| - 2] == SetReadonly
  {
    var r := Protocol(umask, graph);
    if umask & UserExecuteBit == 0 {
      match graph
      case Failure(_) =>
      case Success(g) =>
        var phased := PhasesRun(g.phases);
        assert SetReadonly !in phased.trace;
        if phased.outcome.Pass? {
          var rest := AfterPhases(g.order);
          assert SetReadonly in rest.trace <==> rest.outcome == Pass;
          assert r.trace == phased.trace + rest.trace + [UnwindExitStack];
        }
    }
  }

  /**
   * Every builder is constructed before any builder runs or any item is
   * built: all `MakeBuilder` events come first, one per phase in order, and
   * only once the last is there does anything else happen.
   */
  lemma BuildersConstructedFirst(umask: bv32, g: DependencyGraph, k: nat)
    requires k < |Protocol(umask, Success(g)).trace|
    requires Protocol(umask, Success(g)).trace[k].RunBuilder? || Protocol(umask, Success(g)).trace[k].BuildItem?
    ensures k >= |g.phases| && Protocol(umask, Success(g)).trace[..|g.phases|] == MakeEvents(|g.phases|)
  {
    var t := Protocol(umask, Success(g)).trace;
    var n := |g.phases|;
    var phased := PhasesRun(g.phases);
    var invalid := FirstFalse(Validations(g.phases));
    if invalid < n {
      assert false;
    }
    assert phased.trace[..n] == MakeEvents(n);
    if phased.outcome.Pass? {
      assert t == phased.trace + (AfterPhases(g.order).trace + [UnwindExitStack]);
    } else {
      assert t == phased.trace + [UnwindExitStack];
    }
    assert t[..n] == MakeEvents(n);
  }

  /**
   * The phases run in order before any ordinary item is built, and the
   * items are built one after another in dependency order, each once: the
   * `i`-th builder event is phase `i`, and the `i`-th item event is item `i`.
   */
  lemma PhasesThenItemsInOrder(umask: bv32, g: DependencyGraph, items: seq<Item>)
    requires umask & UserExecuteBit == 0 && g.order.items == items
    requires Protocol(umask, Success(g)).outcome == Pass
    ensures Protocol(umask, Success(g)).trace
            == MakeEvents(|g.phases|) + RunEvents(|g.phases|) + BuildEvents(|items|) + [SetReadonly, UnwindExitStack]
    ensures forall i :: 0 <= i < |items| ==> items[i].builds
    ensures g.order.error.None?
  {
    var phased := PhasesRun(g.phases);
    var n := |g.phases|;
    if FirstFalse(Validations(g.phases)) < n {
      assert false;
    }
    if FirstFalse(Applications(g.phases)) < n {
      assert false;
    }
    var broken := FirstFalse(Builds(items));
    if broken < |items| {
      assert false;
    }
  }

  /**
   * On every run, failing or not, all the phase builders have been
   * constructed and have run, in phase order, before any ordinary item is
   * built.
   */
  lemma PhasesRunBeforeItems(umask: bv32, g: DependencyGraph, k: nat)
    requires k < |Protocol(umask, Success(g)).trace|
    requires Protocol(umask, Success(g)).trace[k].BuildItem?
    ensures var n := |g.phases|;
            k >= 2 * n && Protocol(umask, Success(g)).trace[..2 * n] == MakeEvents(n) + RunEvents(n)
  {
    var t := Protocol(umask, Success(g)).trace;
    var n := |g.phases|;
    var phased := PhasesRun(g.phases);
    if FirstFalse(Validations(g.phases)) < n || FirstFalse(Applications(g.phases)) < n {
      assert false;
    }
    assert phased.trace == MakeEvents(n) + RunEvents(n);
    assert t == phased.trace + (AfterPhases(g.order).trace + [UnwindExitStack]);
    assert t[..2 * n] == phased.trace;
  }

  /**
   * A failing step is the last thing done before the exit stack unwinds:
   * for each kind of failure the whole trace is the steps up to and
   * including the one that raised, then the unwind.
   */
  lemma FailureStopsTheRun(umask: bv32, g: DependencyGraph)
    requires umask & UserExecuteBit == 0
    ensures var r := Protocol(umask, Success(g));
            r.outcome.Fail? && r.outcome.error.InvalidPhase? ==>
              r.trace == MakeEvents(r.outcome.error.phase + 1) + [UnwindExitStack]
    ensures var r := Protocol(umask, Success(g)); var n := |g.phases|;
            r.outcome.Fail? && r.outcome.error.PhaseFailed? ==>
              r.trace == MakeEvents(n) + RunEvents(r.outcome.error.phase + 1) + [UnwindExitStack]
    ensures var r := Protocol(umask, Success(g)); var n := |g.phases|;
            r.outcome.Fail? && r.outcome.error.ItemFailed? ==>
              r.trace == MakeEvents(n) + RunEvents(n) + BuildEvents(r.outcome.error.item + 1) + [UnwindExitStack]
    ensures var r := Protocol(umask, Success(g)); var n := |g.phases|;
            r.outcome.Fail? && r.outcome.error.GraphError? ==>
              r.trace == MakeEvents(n) + RunEvents(n) + BuildEvents(|g.order.items|) + [UnwindExitStack]
  {
  }

  /**
   * An error raised while ordering the items stops the build after the
   * items yielded before it were built: the run fails with that error, the
   * built items are in the trace, and the subvolume is not made read-only.
   */
  lemma ItemsBuiltBeforeOrderError(umask: bv32, g: DependencyGraph)
    requires umask & UserExecuteBit == 0 && PhasesRun(g.phases).outcome == Pass
    requires (forall i :: 0 <= i < |g.order.items| ==> g.order.items[i].builds) && g.order.error.Some?
    ensures Protocol(umask, Success(g)).outcome == Fail(GraphError(g.order.error.value))
    ensures Protocol(umask, Success(g)).trace
            == PhasesRun(g.phases).trace + BuildEvents(|g.order.items|) + [UnwindExitStack]
    ensures SetReadonly !in Protocol(umask, Success(g)).trace
  {
    var items := g.order.items;
    FirstFalseAt(Builds(items), |items|);
    var phased := PhasesRun(g.phases);
    assert SetReadonly !in phased.trace;
  }

  /**
   * Constructs the phase builders in order; a phase whose items do not
   * validate raises from its factory and stops the construction there.
   */
  method MakeBuilders(subvol: Subvol, phases: seq<Phase>) returns (invalid: nat)
    modifies subvol
    ensures invalid == FirstFalse(Validations(phases))
    ensures subvol.trace == old(subvol.trace) + MakeEvents(if invalid < |phases| then invalid + 1 else invalid)
    ensures subvol.readonly == old(subvol.readonly)
  {
    for i := 0 to |phases|
      invariant subvol.trace == old(subvol.trace) + MakeEvents(i) && subvol.readonly == old(subvol.readonly)
      invariant forall j :: 0 <= j < i ==> phases[j].validates
    {
      subvol.Record(MakeBuilder(i));
      assert MakeEvents(i + 1) == MakeEvents(i) + [MakeBuilder(i)];
      if !phases[i].validates {
        FirstFalseAt(Validations(phases), i);
        return i;
      }
    }
    FirstFalseAt(Validations(phases), |phases|);
    invalid := |phases|;
  }

  /** Runs the constructed builders in phase order, stopping at the first that fails. */
  method RunBuilders(subvol: Subvol, phases: seq<Phase>) returns (failed: nat)
    modifies subvol
    ensures failed == FirstFalse(Applications(phases))
    ensures subvol.trace == old(subvol.trace) + RunEvents(if failed < |phases| then failed + 1 else failed)
    ensures subvol.readonly == old(subvol.readonly)
  {
    for i := 0 to |phases|
      invariant subvol.trace == old(subvol.trace) + RunEvents(i) && subvol.readonly == old(subvol.readonly)
      invariant forall j :: 0 <= j < i ==> phases[j].applies
    {
      subvol.Record(RunBuilder(i));
      assert RunEvents(i + 1) == RunEvents(i) + [RunBuilder(i)];
      if !phases[i].applies {
        FirstFalseAt(Applications(phases), i);
        return i;
      }
    }
    FirstFalseAt(Applications(phases), |phases|);
    failed := |phases|;
  }

  /** Builds the ordinary items in dependency order, stopping at the first that fails. */
  method BuildItems(subvol: Subvol, items: seq<Item>) returns (broken: nat)
    modifies subvol
    ensures broken == FirstFalse(Builds(items))
    ensures subvol.trace == old(subvol.trace) + BuildEvents(if broken < |items| then broken + 1 else broken)
    ensures subvol.readonly == old(subvol.readonly)
  {
    for i := 0 to |items|
      invariant subvol.trace == old(subvol.trace) + BuildEvents(i) && subvol.readonly == old(subvol.readonly)
      invariant forall j :: 0 <= j < i ==> items[j].builds
    {
      subvol.Record(BuildItem(i));
      assert BuildEvents(i + 1) == BuildEvents(i) + [BuildItem(i)];
      if !items[i].builds {
        FirstFalseAt(Builds(items), i);
        return i;
      }
    }
    FirstFalseAt(Builds(items), |items|);
    broken := |items|;
  }

  /** The ordinary items and the read-only flag, once the phases are done. */
  method FinishImage(subvol: Subvol, order: ItemOrder) returns (outcome: Outcome<BuildError>)
    modifies subvol
    ensures outcome == AfterPhases(order).outcome
    ensures subvol.trace == old(subvol.trace) + AfterPhases(order).trace
    ensures subvol.readonly == (outcome.Pass? || old(subvol.readonly))
  {
    var items := order.items;
    var broken := BuildItems(subvol, items);
    if broken < |items| {
      return Fail(ItemFailed(broken));
    }
    if order.error.Some? {
      return Fail(GraphError(order.error.value));
    }
    // The flag is set while the exit stack is still open; its unwind comes after.
    subvol.MarkReadonly();
    outcome := Pass;
  }

  /** The phases: every builder is constructed before any of them runs. */
  method RunPhases(subvol: Subvol, phases: seq<Phase>) returns (outcome: Outcome<BuildError>)
    modifies subvol
    ensures outcome == PhasesRun(phases).outcome
    ensures subvol.trace == old(subvol.trace) + PhasesRun(phases).trace
    ensures subvol.readonly == old(subvol.readonly)
  {
    // No builder runs until every factory has accepted its phase's items.
    var invalid := MakeBuilders(subvol, phases);
    if invalid < |phases| {
      return Fail(InvalidPhase(invalid));
    }
    var failed := RunBuilders(subvol, phases);
    if failed < |phases| {
      assert subvol.trace == old(subvol.trace) + (MakeEvents(|phases|) + RunEvents(failed + 1));
      return Fail(PhaseFailed(failed));
    }
    assert subvol.trace == old(subvol.trace) + (MakeEvents(|phases|) + RunEvents(|phases|));
    outcome := Pass;
  }

  /** The body of the `with ExitStack()` block. */
  method InExitStack(subvol: Subvol, graph: Result<DependencyGraph, string>) returns (outcome: Outcome<BuildError>)
    modifies subvol
    ensures outcome == InsideExitStack(graph).outcome
    ensures subvol.trace == old(subvol.trace) + InsideExitStack(graph).trace
    ensures subvol.readonly == (outcome.Pass? || old(subvol.readonly))
  {
    match graph {
      case Failure(message) =>
        outcome := Fail(GraphError(message));
      case Success(g) =>
        outcome := RunPhases(subvol, g.phases);
        if outcome.Pass? {
          outcome := FinishImage(subvol, g.order);
          assert subvol.trace == old(subvol.trace) + (PhasesRun(g.phases).trace + AfterPhases(g.order).trace);
        }
    }
  }

  /**
   * `build_image`: checks the umask, then inside the exit stack constructs
   * every phase builder, runs them in order, builds the ordinary items in
   * dependency order and marks the subvolume read-only before the stack
   * unwinds. The umask is left as it was.
   */
  method BuildImage(process: Process, subvol: Subvol, graph: Result<DependencyGraph, string>)
    returns (outcome: Outcome<BuildError>)
    modifies process, subvol
    ensures process.umask == old(process.umask)
    ensures outcome == Protocol(old(process.umask), graph).outcome
    ensures subvol.trace == old(subvol.trace) + Protocol(old(process.umask), graph).trace
    ensures subvol.readonly == (outcome.Pass? || old(subvol.readonly))
  {
    var umask := ProbeUmask(process);
    if umask & UserExecuteBit != 0 {
      return Fail(PathologicalUmask(umask));
    }
    outcome := InExitStack(subvol, graph);
    subvol.Record(UnwindExitStack);
  }
}
