/** Value types shared by the entity selector: positions, world entities,
    target records and the effect requests the selector emits. */
module Targets {

  datatype Option<+T> = None | Some(value: T)

  /** A world position. Integer coordinates stand in for the engine's floats. */
  datatype Vec3 = Vec3(x: int, y: int, z: int)

  /** The kinds of thing a target record can describe (`ValidEntityTypes`). */
  datatype Kind = Object | Pos | Npc | Player | Vehicle

  /** The vertical part of a model's bounding box, as reported by the engine. */
  datatype Bounds = Bounds(minZ: int, maxZ: int)

  /** A streamed-in world entity. `id` is the synchronised entity id and
      `scriptID` the client-side handle; the two are distinct numbers.
      `dims` is `None` where the engine's dimensions are not numbers. */
  datatype Entity = Entity(id: int, scriptID: int, pos: Vec3, dims: Option<Bounds>)

  /** A target record (`TargetInfo`). `dist` is the SQUARED planar distance to
      the local player; `height` is `None` where the source's value is NaN. */
  datatype Target = Target(id: int, pos: Vec3, kind: Kind, dist: int, height: Option<int>)

  /** What the host's `alt.Player.all` / `alt.Vehicle.all` lists expose to the
      commit step: a handle and whether the entity is still valid. */
  datatype Handle = Handle(scriptID: int, valid: bool)

  /** The local player: its own handle, position and vehicle occupancy. */
  datatype LocalPlayer = LocalPlayer(scriptID: int, pos: Vec3, inVehicle: bool)

  /** Everything the selector reads from the host world in one frame. */
  datatype World = World(
    me: LocalPlayer,
    players: seq<Entity>,
    vehicles: seq<Entity>,
    objects: seq<Entity>,
    allPlayers: seq<Handle>,
    allVehicles: seq<Handle>)

  /** The front-end sound cues the selector plays. */
  datatype Cue = Select | Back | Skip

  /** Fire-and-forget requests to the host: a sound, a marker drawn at a
      position, or one of the three interaction menus opened for a handle. */
  datatype Effect =
    | Sound(cue: Cue)
    | Marker(pos: Vec3)
    | OpenNpc(id: int)
    | OpenPlayer(id: int)
    | OpenVehicle(id: int)

  function Abs(n: int): nat
  {
    if n < 0 then -n else n
  }

  /** The square of the planar (x, y) distance between two positions. */
  function SqDist2D(a: Vec3, b: Vec3): nat
  {
    (a.x - b.x) * (a.x - b.x) + (a.y - b.y) * (a.y - b.y)
  }

  function Min(a: int, b: int): int
  {
    if a < b then a else b
  }
}
