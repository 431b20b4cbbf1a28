/**
 * The fish state machine: the idle and cruise states
 * (engine/game/fsm/idle_state.py, engine/game/fsm/cruise_state.py) and the
 * per-fish protocol of the FSM driver (engine/game/systems/fish_fsm_system.py):
 * weighted start pick, brain initialisation, timing, and exit/reset/enter on
 * a transition.
 *
 * A fish's Brain and MovementIntent are updated in place by the states; here
 * they travel together as a `Mind` value and every step returns the new one
 * together with the advanced random stream.
 */
module Fsm {
  import opened Wrappers
  import opened Components
  import opened Rand

  /** The states the driver registers, by name. */
  datatype FsmState = Idle | Cruise

  function StateName(s: FsmState): string {
    match s
    case Idle => "idle"
    case Cruise => "cruise"
  }

  /** `self._states.get(name)`. */
  function StateNamed(name: string): (r: Option<FsmState>)
    ensures r.Some? <==> name == "idle" || name == "cruise"
    ensures r.Some? ==> StateName(r.value) == name
  {
    if name == "idle" then Some(Idle) else if name == "cruise" then Some(Cruise) else None
  }

  /** A cruise duration: a scalar `d` stands for the range [d, d]. */
  datatype DurationRange = Fixed(d: real) | Between(lo: real, hi: real)

  /**
   * What the driver and its two states are configured with: the start
   * weights in dict order, the idle duration, the cruise duration range, the
   * species table and the default cruise speed.
   */
  datatype FsmConfig = FsmConfig(startWeights: seq<(string, real)>, idleDuration: real,
                                 cruiseDuration: DurationRange, species: map<string, SpeciesEntry>,
                                 defaultSpeed: real)

  datatype Mind = Mind(brain: Brain, intent: MovementIntent)

  // ------------------------------------------------------------------
  // Idle
  // ------------------------------------------------------------------

  /** `IdleState.on_enter`: restart the timer for the fixed duration and stop. */
  function IdleEnter(cfg: FsmConfig, m: Mind): (r: Mind)
    ensures r.brain.timeInState == 0.0 && r.brain.stateDuration == cfg.idleDuration
    ensures r.intent == MovementIntent(0.0, 0.0)
    ensures r.brain.state == m.brain.state && r.brain.initialized == m.brain.initialized
  {
    Mind(m.brain.(timeInState := 0.0, stateDuration := cfg.idleDuration), MovementIntent(0.0, 0.0))
  }

  // ------------------------------------------------------------------
  // Cruise
  // ------------------------------------------------------------------

  /** `CruiseState._pick_speed`: a draw from the species' two-element range, else the default with no draw. */
  function PickSpeed(cfg: FsmConfig, fish: Fish, g: Rng): (r: (real, Rng))
  {
    if fish.speciesId !in cfg.species then (cfg.defaultSpeed, g)
    else
      match cfg.species[fish.speciesId].speedRange
      case Some(range) =>
        if |range| == 2 then Uniform(g, range[0], range[1]) else (cfg.defaultSpeed, g)
      case None => (cfg.defaultSpeed, g)
  }

  /** The `(lo, hi)` the cruise duration is drawn from. */
  function DurationBounds(d: DurationRange): (real, real) {
    match d
    case Fixed(x) => (x, x)
    case Between(lo, hi) => (lo, hi)
  }

  /**
   * `CruiseState.on_enter`: restart the timer, draw the duration, then the
   * speed, then the heading, and aim the intent at speed times that heading.
   */
  function CruiseEnter(cfg: FsmConfig, fish: Fish, m: Mind, g: Rng): (r: (Mind, Rng))
  {
    var (lo, hi) := DurationBounds(cfg.cruiseDuration);
    var (duration, g1) := Uniform(g, lo, hi);
    var (speed, g2) := PickSpeed(cfg, fish, g1);
    var (heading, g3) := DrawDir(g2);
    (Mind(m.brain.(timeInState := 0.0, stateDuration := duration),
          MovementIntent(speed * heading.ux, speed * heading.uy)), g3)
  }

  // ------------------------------------------------------------------
  // The state interface
  // ------------------------------------------------------------------

  /** `state.update`: both states ask to leave once the timer reaches the duration. */
  function StateUpdate(s: FsmState, b: Brain): (r: Option<string>)
    ensures r.Some? <==> b.timeInState >= b.stateDuration
    ensures r.Some? ==> r.value != StateName(s) && StateNamed(r.value).Some?
  {
    if b.timeInState >= b.stateDuration then
      match s
      case Idle => Some("cruise")
      case Cruise => Some("idle")
    else None
  }

  /** `state.on_exit`: neither state does anything on exit. */
  function OnExit(s: FsmState, m: Mind): Mind {
    m
  }

  function OnEnter(cfg: FsmConfig, s: FsmState, fish: Fish, m: Mind, g: Rng): (Mind, Rng) {
    match s
    case Idle => (IdleEnter(cfg, m), g)
    case Cruise => CruiseEnter(cfg, fish, m, g)
  }

  /** `_enter_state`: enter the brain's current state, an unknown name being replaced by "idle". */
  function Enter(cfg: FsmConfig, fish: Fish, m: Mind, g: Rng): (r: (Mind, Rng))
    ensures StateNamed(r.0.brain.state).Some?
    ensures StateNamed(m.brain.state).Some? ==> r.0.brain.state == m.brain.state
    ensures StateNamed(m.brain.state).None? ==> r.0.brain.state == "idle"
    ensures r.0.brain.timeInState == 0.0 && r.0.brain.initialized == m.brain.initialized
  {
    match StateNamed(m.brain.state)
    case Some(s) => OnEnter(cfg, s, fish, m, g)
    case None => OnEnter(cfg, Idle, fish, m.(brain := m.brain.(state := "idle")), g)
  }

  // ------------------------------------------------------------------
  // Weighted start state
  // ------------------------------------------------------------------

  /** The sum of the weights, accumulated front to back. */
  function Total(ws: seq<(string, real)>): real {
    if ws == [] then 0.0 else Total(ws[..|ws| - 1]) + ws[|ws| - 1].1
  }

  /** The running sum after position `j`. */
  function RunningSum(ws: seq<(string, real)>, j: nat): real
    requires j < |ws|
  {
    Total(ws[..j + 1])
  }

  /** The first position from `i` on where the running sum reaches `r`. */
  function FirstReaching(ws: seq<(string, real)>, r: real, i: nat): (res: Option<nat>)
    requires i <= |ws|
    ensures res.Some? ==> i <= res.value < |ws| && r <= RunningSum(ws, res.value)
    ensures res.Some? ==> forall j | i <= j < res.value :: r > RunningSum(ws, j)
    ensures res.None? ==> forall j | i <= j < |ws| :: r > RunningSum(ws, j)
    decreases |ws| - i
  {
    if i == |ws| then None
    else if r <= RunningSum(ws, i) then Some(i)
    else FirstReaching(ws, r, i + 1)
  }

  /** The name a draw `r` selects: the first whose running sum reaches it, else the last. */
  function Pick(ws: seq<(string, real)>, r: real): (name: string)
    requires ws != []
  {
    match FirstReaching(ws, r, 0)
    case Some(i) => ws[i].0
    case None => ws[|ws| - 1].0
  }

  /** `_pick_start_state` as a function of the weights and the stream. */
  function PickStart(ws: seq<(string, real)>, g: Rng): (r: (string, Rng))
  {
    if ws == [] then ("idle", g)
    else if Total(ws) <= 0.0 then (ws[0].0, g)
    else
      var (r, g1) := Uniform(g, 0.0, Total(ws));
      (Pick(ws, r), g1)
  }

  /** `_pick_start_state`, with its accumulator loop. */
  method PickStartState(ws: seq<(string, real)>, g: Rng) returns (name: string, g': Rng)
    ensures (name, g') == PickStart(ws, g)
  {
    if |ws| == 0 {
      return "idle", g;
    }
    var total := 0.0;
    for i := 0 to |ws|
      invariant total == Total(ws[..i])
    {
      assert ws[..i + 1][..i] == ws[..i];
      total := total + ws[i].1;
    }
    assert ws[..|ws|] == ws;
    if total <= 0.0 {
      return ws[0].0, g;
    }
    var r;
    r, g' := Uniform(g, 0.0, total).0, Uniform(g, 0.0, total).1;
    var acc := 0.0;
    for i := 0 to |ws|
      invariant acc == Total(ws[..i])
      invariant FirstReaching(ws, r, 0) == FirstReaching(ws, r, i)
    {
      assert ws[..i + 1][..i] == ws[..i];
      acc := acc + ws[i].1;
      if r <= acc {
        return ws[i].0, g';
      }
    }
    name := ws[|ws| - 1].0;
  }

  /**
   * The start pick: "idle" for an empty table and the first name when the
   * weights sum to at most 0, both without a draw; otherwise one draw in
   * [0, total] selects the first name whose running sum reaches it, else the
   * last. Either way the result is a configured name (or "idle").
   */
  lemma PickStartSpec(ws: seq<(string, real)>, g: Rng)
    requires ValidRng(g)
    ensures ws == [] ==> PickStart(ws, g) == ("idle", g)
    ensures ws != [] && Total(ws) <= 0.0 ==> PickStart(ws, g) == (ws[0].0, g)
    ensures ws != [] && Total(ws) > 0.0 ==>
              && PickStart(ws, g).1 == g.(pos := g.pos + 1)
              && 0.0 <= Uniform(g, 0.0, Total(ws)).0 <= Total(ws)
              && PickStart(ws, g).0 == Pick(ws, Uniform(g, 0.0, Total(ws)).0)
    ensures ws != [] ==> exists i | 0 <= i < |ws| :: ws[i].0 == PickStart(ws, g).0
  {
    if ws != [] && Total(ws) > 0.0 {
      var r := Uniform(g, 0.0, Total(ws)).0;
      match FirstReaching(ws, r, 0)
      case Some(i) => assert ws[i].0 == PickStart(ws, g).0;
      case None => assert ws[|ws| - 1].0 == PickStart(ws, g).0;
    } else if ws != [] {
      assert ws[0].0 == PickStart(ws, g).0;
    }
  }

  /**
   * The two weightings the engine's tests use: with {idle: 1, cruise: 0} the
   * pick is always "idle"; with {idle: 0, cruise: 1} it is "cruise" exactly
   * when the draw is not 0 (a zero draw picks "idle").
   */
  lemma PickExamples(g: Rng)
    requires ValidRng(g)
    ensures PickStart([("idle", 1.0), ("cruise", 0.0)], g).0 == "idle"
    ensures PickStart([("idle", 0.0), ("cruise", 1.0)], g).0 == (if g.unit(g.pos) > 0.0 then "cruise" else "idle")
  {
    var a := [("idle", 1.0), ("cruise", 0.0)];
    var b := [("idle", 0.0), ("cruise", 1.0)];
    assert a[..1] == [("idle", 1.0)] && a[..2] == a;
    assert b[..1] == [("idle", 0.0)] && b[..2] == b;
    assert [("idle", 1.0)][..0] == [];
    assert [("idle", 0.0)][..0] == [];
    assert Total(a) == 1.0;
    assert Total(b) == 1.0;
  }

  // ------------------------------------------------------------------
  // One tick of one fish
  // ------------------------------------------------------------------

  /** The body of the driver's loop for one fish: initialise, advance, maybe transition. */
  function Tick(cfg: FsmConfig, fish: Fish, m: Mind, dt: real, g: Rng): (r: (Mind, Rng))
  {
    var (m1, g1) :=
      if m.brain.initialized then (m, g)
      else
        var (name, ga) := PickStart(cfg.startWeights, g);
        var (me, gb) := Enter(cfg, fish, m.(brain := m.brain.(state := name)), ga);
        (me.(brain := me.brain.(initialized := true)), gb);
    var b2 := m1.brain.(timeInState := m1.brain.timeInState + dt);
    var (s, b3) := match StateNamed(b2.state)
                   case Some(s) => (s, b2)
                   case None => (Idle, b2.(state := "idle"));
    var m3 := Mind(b3, m1.intent);
    match StateUpdate(s, b3)
    case None => (m3, g1)
    case Some(next) =>
      if next == b3.state then (m3, g1)
      else
        var m4 := OnExit(s, m3);
        Enter(cfg, fish, m4.(brain := m4.brain.(state := next, timeInState := 0.0, stateDuration := 0.0)), g1)
  }

  /**
   * After a tick the brain is initialised and names a registered state; an
   * uninitialised brain is first given its start state and entered.
   */
  lemma TickKnownState(cfg: FsmConfig, fish: Fish, m: Mind, dt: real, g: Rng)
    ensures Tick(cfg, fish, m, dt, g).0.brain.initialized
    ensures StateNamed(Tick(cfg, fish, m, dt, g).0.brain.state).Some?
  {
  }

  /**
   * An initialised brain in a registered state: the timer advances by
   * exactly dt, and the state asks to leave exactly when the timer reaches
   * the duration. Staying changes nothing else and draws nothing; leaving
   * switches to the other state with the timer at 0 and that state entered.
   */
  lemma TickInitialised(cfg: FsmConfig, fish: Fish, m: Mind, dt: real, g: Rng)
    requires m.brain.initialized && StateNamed(m.brain.state).Some?
    ensures var s := StateNamed(m.brain.state).value;
            var advanced := m.brain.(timeInState := m.brain.timeInState + dt);
            var r := Tick(cfg, fish, m, dt, g);
            if advanced.timeInState < advanced.stateDuration then
              r == (Mind(advanced, m.intent), g)
            else
              && r.0.brain.state != m.brain.state
              && r.0.brain.timeInState == 0.0
              && r == OnEnter(cfg, StateNamed(r.0.brain.state).value, fish,
                              Mind(advanced.(state := r.0.brain.state, timeInState := 0.0, stateDuration := 0.0),
                                   m.intent), g)
  {
  }

  /** An initialised brain with an unregistered state name is treated as idle from this tick on. */
  lemma TickUnknownState(cfg: FsmConfig, fish: Fish, m: Mind, dt: real, g: Rng)
    requires m.brain.initialized && StateNamed(m.brain.state).None?
    ensures var advanced := m.brain.(state := "idle", timeInState := m.brain.timeInState + dt);
            var r := Tick(cfg, fish, m, dt, g);
            if advanced.timeInState < advanced.stateDuration then
              r == (Mind(advanced, m.intent), g)
            else
              r.0.brain.state == "cruise" && r.0.brain.timeInState == 0.0
  {
  }

  /** Entering idle stops the fish and arms the configured duration. */
  lemma EnterIdle(cfg: FsmConfig, fish: Fish, m: Mind, g: Rng)
    requires m.brain.state == "idle"
    ensures Enter(cfg, fish, m, g).1 == g
    ensures Enter(cfg, fish, m, g).0.intent == MovementIntent(0.0, 0.0)
    ensures Enter(cfg, fish, m, g).0.brain.stateDuration == cfg.idleDuration
  {
  }

  /**
   * Entering cruise: the duration lies in the configured range, the speed is
   * the default unless the species has a two-element range (then it lies in
   * that range), and the intent is speed times a unit heading, so its
   * squared length is the squared speed.
   */
  lemma CruiseEnterSpec(cfg: FsmConfig, fish: Fish, m: Mind, g: Rng)
    requires ValidRng(g)
    ensures var (lo, hi) := DurationBounds(cfg.cruiseDuration);
            var r := CruiseEnter(cfg, fish, m, g);
            var speed := PickSpeed(cfg, fish, g.(pos := g.pos + 1)).0;
            && r.0.brain.timeInState == 0.0
            && Min(lo, hi) <= r.0.brain.stateDuration <= Max(lo, hi)
            && r.0.intent.targetVx * r.0.intent.targetVx + r.0.intent.targetVy * r.0.intent.targetVy == speed * speed
            && (fish.speciesId !in cfg.species ==> speed == cfg.defaultSpeed)
            && (fish.speciesId in cfg.species ==>
                  match cfg.species[fish.speciesId].speedRange
                  case Some(range) =>
                    if |range| == 2 then Min(range[0], range[1]) <= speed <= Max(range[0], range[1])
                    else speed == cfg.defaultSpeed
                  case None => speed == cfg.defaultSpeed)
  {
    var g1 := g.(pos := g.pos + 1);
    ValidAdvance(g, g.pos + 1);
    var (speed, g2) := PickSpeed(cfg, fish, g1);
    ValidAdvance(g, g2.pos);
    var (d, _) := DrawDir(g2);
    calc {
      (speed * d.ux) * (speed * d.ux) + (speed * d.uy) * (speed * d.uy);
      speed * speed * (d.ux * d.ux + d.uy * d.uy);
      speed * speed;
    }
  }
}
