/**
 * The phase-based scheduler (engine/scheduling/scheduler.py).
 *
 * Systems are opaque ids; running one is recorded as a `Run` step and the
 * call to `flush_commands` as a `FlushStep`, so `update` and `render` return
 * the call trace they perform.
 */
module Scheduling {
  import opened Wrappers

  type SystemId = nat

  datatype Phase = PreUpdate | Logic | PostUpdate | RenderPhase

  function PhaseName(p: Phase): string {
    match p
    case PreUpdate => "pre_update"
    case Logic => "logic"
    case PostUpdate => "post_update"
    case RenderPhase => "render"
  }

  /** The four phase names are the only keys of the scheduler's table. */
  function ParsePhase(s: string): (r: Option<Phase>)
    ensures r.Some? ==> PhaseName(r.value) == s
    ensures r.None? <==> forall p: Phase :: PhaseName(p) != s
  {
    if s == "pre_update" then Some(PreUpdate)
    else if s == "logic" then Some(Logic)
    else if s == "post_update" then Some(PostUpdate)
    else if s == "render" then Some(RenderPhase)
    else None
  }

  /**
   * `phase or getattr(system, "phase", "logic")`: an argument that is absent
   * or empty falls back to the system's own attribute, and a system without
   * one to "logic".
   */
  function ChosenPhase(phase: Option<string>, declared: Option<string>): (r: string)
    ensures phase.Some? && phase.value != "" ==> r == phase.value
    ensures (phase.None? || phase.value == "") && declared.Some? ==> r == declared.value
    ensures (phase.None? || phase.value == "") && declared.None? ==> r == "logic"
  {
    if phase.Some? && phase.value != "" then phase.value else declared.GetOr("logic")
  }

  datatype Step = Run(system: SystemId, phase: Phase) | FlushStep

  /** Running the systems of one phase, in order. */
  function Runs(systems: seq<SystemId>, p: Phase): (r: seq<Step>)
    ensures |r| == |systems|
    ensures forall i | 0 <= i < |r| :: r[i] == Run(systems[i], p)
  {
    seq(|systems|, i requires 0 <= i < |systems| => Run(systems[i], p))
  }

  type Table = map<Phase, seq<SystemId>>

  predicate Complete(t: Table) {
    forall p: Phase :: p in t
  }

  /** The table `__init__` builds: every phase, no systems. */
  const EmptyTable: Table := map[PreUpdate := [], Logic := [], PostUpdate := [], RenderPhase := []]

  lemma EmptyTableComplete()
    ensures Complete(EmptyTable)
  {
    forall p: Phase ensures p in EmptyTable {
      match p
      case PreUpdate =>
      case Logic =>
      case PostUpdate =>
      case RenderPhase =>
    }
  }

  /** The trace of one `update`: the three update phases in order, then one flush. */
  function UpdateTrace(t: Table): seq<Step>
    requires Complete(t)
  {
    Runs(t[PreUpdate], PreUpdate) + Runs(t[Logic], Logic) + Runs(t[PostUpdate], PostUpdate) + [FlushStep]
  }

  function RenderTrace(t: Table): seq<Step>
    requires Complete(t)
  {
    Runs(t[RenderPhase], RenderPhase)
  }

  /** The systems a trace runs in phase `p`, in trace order. */
  function RunsIn(trace: seq<Step>, p: Phase): seq<SystemId> {
    if trace == [] then []
    else (if trace[0].Run? && trace[0].phase == p then [trace[0].system] else []) + RunsIn(trace[1..], p)
  }

  function Rank(p: Phase): nat {
    match p
    case PreUpdate => 0
    case Logic => 1
    case PostUpdate => 2
    case RenderPhase => 3
  }

  class Scheduler {
    var systemsByPhase: Table

    ghost predicate Valid()
      reads this
    {
      Complete(systemsByPhase)
    }

    constructor ()
      ensures Valid()
      ensures systemsByPhase == EmptyTable
    {
      systemsByPhase := EmptyTable;
      EmptyTableComplete();
    }

    /** `add_system`: an unknown phase raises ValueError and registers nothing. */
    method AddSystem(system: SystemId, phase: Option<string>, declared: Option<string>) returns (outcome: Outcome)
      requires Valid()
      modifies this
      ensures Valid()
      ensures var ph := ChosenPhase(phase, declared);
              match ParsePhase(ph)
              case None =>
                outcome == Fail(ValueError("Unknown phase: '" + ph + "'")) && systemsByPhase == old(systemsByPhase)
              case Some(p) =>
                outcome == Pass && systemsByPhase == old(systemsByPhase)[p := old(systemsByPhase)[p] + [system]]
    {
      var ph := ChosenPhase(phase, declared);
      var p := ParsePhase(ph);
      if p.None? {
        return Fail(ValueError("Unknown phase: '" + ph + "'"));
      }
      systemsByPhase := systemsByPhase[p.value := systemsByPhase[p.value] + [system]];
      outcome := Pass;
    }

    /** `update`: every system of the three update phases, then `flush_commands` once. */
    method Update() returns (trace: seq<Step>)
      requires Valid()
      ensures trace == UpdateTrace(systemsByPhase)
    {
      trace := [];
      var phases := [PreUpdate, Logic, PostUpdate];
      for n := 0 to 3
        invariant trace == Done(systemsByPhase, phases[..n])
      {
        var p := phases[n];
        var systems := systemsByPhase[p];
        for i := 0 to |systems|
          invariant trace == Done(systemsByPhase, phases[..n]) + Runs(systems[..i], p)
        {
          trace := trace + [Run(systems[i], p)];
        }
        assert systems[..|systems|] == systems;
        assert phases[..n + 1] == phases[..n] + [p];
        DoneSnoc(systemsByPhase, phases[..n], p);
        if p == PostUpdate {
          trace := trace + [FlushStep];
        }
      }
      assert phases[..3] == phases;
      DoneUpdate(systemsByPhase);
    }

    /** `render`: the render-phase systems only, and no flush. */
    method Render() returns (trace: seq<Step>)
      requires Valid()
      ensures trace == RenderTrace(systemsByPhase)
    {
      trace := [];
      var systems := systemsByPhase[RenderPhase];
      for i := 0 to |systems|
        invariant trace == Runs(systems[..i], RenderPhase)
      {
        trace := trace + [Run(systems[i], RenderPhase)];
      }
      assert systems[..|systems|] == systems;
    }
  }

  /** The trace after the phases `done` have run (a flush follows post_update). */
  function Done(t: Table, done: seq<Phase>): seq<Step>
    requires Complete(t)
  {
    if done == [] then []
    else
      var p := done[|done| - 1];
      Done(t, done[..|done| - 1]) + Runs(t[p], p) + (if p == PostUpdate then [FlushStep] else [])
  }

  lemma DoneSnoc(t: Table, done: seq<Phase>, p: Phase)
    requires Complete(t)
    ensures Done(t, done + [p]) == Done(t, done) + Runs(t[p], p) + (if p == PostUpdate then [FlushStep] else [])
  {
    assert (done + [p])[..|done|] == done;
  }

  lemma DoneUpdate(t: Table)
    requires Complete(t)
    ensures Done(t, [PreUpdate, Logic, PostUpdate]) == UpdateTrace(t)
  {
    DoneSnoc(t, [], PreUpdate);
    DoneSnoc(t, [PreUpdate], Logic);
    DoneSnoc(t, [PreUpdate, Logic], PostUpdate);
    assert [PreUpdate] == [] + [PreUpdate];
    assert [PreUpdate, Logic] == [PreUpdate] + [Logic];
    assert [PreUpdate, Logic, PostUpdate] == [PreUpdate, Logic] + [PostUpdate];
  }

  lemma {:induction false} RunsInAppend(a: seq<Step>, b: seq<Step>, p: Phase)
    ensures RunsIn(a + b, p) == RunsIn(a, p) + RunsIn(b, p)
    decreases |a|
  {
    if a == [] {
      assert a + b == b;
    } else {
      assert (a + b)[0] == a[0];
      assert (a + b)[1..] == a[1..] + b;
      RunsInAppend(a[1..], b, p);
    }
  }

  lemma {:induction false} RunsInRuns(systems: seq<SystemId>, q: Phase, p: Phase)
    ensures RunsIn(Runs(systems, q), p) == if p == q then systems else []
    decreases |systems|
  {
    if systems != [] {
      assert Runs(systems, q)[1..] == Runs(systems[1..], q);
      RunsInRuns(systems[1..], q, p);
    }
  }

  /**
   * One `update` runs the pre_update, logic and post_update systems, each
   * phase's in registration order, never a render system, and ends with the
   * only flush; phases never interleave.
   */
  lemma UpdateTraceSpec(t: Table)
    requires Complete(t)
    ensures var tr := UpdateTrace(t);
            && |tr| == |t[PreUpdate]| + |t[Logic]| + |t[PostUpdate]| + 1
            && tr[|tr| - 1] == FlushStep
            && (forall i | 0 <= i < |tr| - 1 :: tr[i].Run? && tr[i].phase != RenderPhase)
            && (forall i, j | 0 <= i < j < |tr| - 1 :: Rank(tr[i].phase) <= Rank(tr[j].phase))
            && RunsIn(tr, PreUpdate) == t[PreUpdate]
            && RunsIn(tr, Logic) == t[Logic]
            && RunsIn(tr, PostUpdate) == t[PostUpdate]
            && RunsIn(tr, RenderPhase) == []
  {
    var a, b, c := Runs(t[PreUpdate], PreUpdate), Runs(t[Logic], Logic), Runs(t[PostUpdate], PostUpdate);
    var tr := UpdateTrace(t);
    assert tr == a + b + c + [FlushStep];
    forall p: Phase ensures RunsIn(tr, p) == (if p == PreUpdate then t[PreUpdate] else [])
                                             + (if p == Logic then t[Logic] else [])
                                             + (if p == PostUpdate then t[PostUpdate] else [])
    {
      RunsInAppend(a + b + c, [FlushStep], p);
      RunsInAppend(a + b, c, p);
      RunsInAppend(a, b, p);
      RunsInRuns(t[PreUpdate], PreUpdate, p);
      RunsInRuns(t[Logic], Logic, p);
      RunsInRuns(t[PostUpdate], PostUpdate, p);
      assert RunsIn([FlushStep], p) == [];
    }
    forall i | 0 <= i < |tr| - 1
      ensures Rank(tr[i].phase) == if i < |a| then 0 else if i < |a| + |b| then 1 else 2
    {
      if i < |a| { assert tr[i] == a[i]; }
      else if i < |a| + |b| { assert tr[i] == b[i - |a|]; }
      else { assert tr[i] == c[i - |a| - |b|]; }
    }
  }

  /** `render` runs exactly the render-phase systems, in order, and never flushes. */
  lemma RenderTraceSpec(t: Table)
    requires Complete(t)
    ensures var tr := RenderTrace(t);
            && (forall i | 0 <= i < |tr| :: tr[i].Run? && tr[i].phase == RenderPhase)
            && RunsIn(tr, RenderPhase) == t[RenderPhase]
            && FlushStep !in tr
  {
    RunsInRuns(t[RenderPhase], RenderPhase, RenderPhase);
  }
}
