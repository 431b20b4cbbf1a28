/**
 * The component records of the game (engine/game/components/) and the
 * closed set of component kinds the entity store is keyed by.
 *
 * In the engine a component's kind is its Python class; here the kinds are an
 * enumeration and a stored value is one `Component`, tagged by its kind.
 */
module Components {
  import opened Wrappers

  /** An opaque entity handle; the world hands them out from 1 upwards. */
  type EntityId = nat

  datatype Position = Position(x: real, y: real)
  datatype Velocity = Velocity(vx: real, vy: real)
  datatype Color = Color(r: int, g: int, b: int)
  datatype RectSprite = RectSprite(width: real, height: real, color: Color)
  datatype Fish = Fish(speciesId: string)
  datatype Tank = Tank(tankId: string, maxFish: int)
  datatype InTank = InTank(tank: EntityId)
  datatype TankBounds = TankBounds(x: real, y: real, width: real, height: real)

  /** FSM bookkeeping of one fish (brain.py). */
  datatype Brain = Brain(state: string, timeInState: real, stateDuration: real, initialized: bool)

  /** The default Brain(): "idle", both timers 0, not initialised. */
  const DefaultBrain := Brain("idle", 0.0, 0.0, false)

  datatype MovementIntent = MovementIntent(targetVx: real, targetVy: real)

  /** The default MovementIntent(): no desired velocity. */
  const DefaultIntent := MovementIntent(0.0, 0.0)

  /**
   * Falling behaviour (falling.py). `None` stands for Python's None in the
   * optional overrides; `stopOnFloor` is declared `bool` but the falling
   * system treats None as "use the configured default".
   */
  datatype Falling = Falling(gravity: Option<real>, terminalVelocity: Option<real>,
                             stopOnFloor: Option<bool>, grounded: bool)

  /** The truthiness of `falling.stop_on_floor`; None is false. */
  predicate Stops(f: Falling) {
    f.stopOnFloor == Some(true)
  }

  datatype Bobbing = Bobbing(amplitude: real, frequency: real, phase: real, t: real)
  datatype Pellet = Pellet(size: real)

  /**
   * One entry of the species configuration: the keys the fish factory and the
   * cruise state read. `None` is a key the entry lacks; a `speed_range` that is
   * not a list is also `None`.
   */
  datatype SpeciesEntry = SpeciesEntry(width: Option<real>, height: Option<real>, color: Option<Color>,
                                       speedRange: Option<seq<real>>)

  datatype Kind =
    | PositionKind | VelocityKind | RectSpriteKind | FishKind | TankKind | InTankKind
    | TankBoundsKind | BrainKind | MovementIntentKind | FallingKind | BobbingKind | PelletKind

  datatype Component =
    | CPosition(position: Position)
    | CVelocity(velocity: Velocity)
    | CRectSprite(sprite: RectSprite)
    | CFish(fish: Fish)
    | CTank(tank: Tank)
    | CInTank(inTank: InTank)
    | CTankBounds(bounds: TankBounds)
    | CBrain(brain: Brain)
    | CMovementIntent(intent: MovementIntent)
    | CFalling(falling: Falling)
    | CBobbing(bobbing: Bobbing)
    | CPellet(pellet: Pellet)

  /** `type(component)`: the kind a value is stored under. */
  function KindOf(c: Component): Kind {
    match c
    case CPosition(_) => PositionKind
    case CVelocity(_) => VelocityKind
    case CRectSprite(_) => RectSpriteKind
    case CFish(_) => FishKind
    case CTank(_) => TankKind
    case CInTank(_) => InTankKind
    case CTankBounds(_) => TankBoundsKind
    case CBrain(_) => BrainKind
    case CMovementIntent(_) => MovementIntentKind
    case CFalling(_) => FallingKind
    case CBobbing(_) => BobbingKind
    case CPellet(_) => PelletKind
  }
}
