/**
 Coordinates and runtime ids (bedrock/position.go).
 Block positions are reals; a chunk column is 16 blocks wide.
 */
module Position {
  import opened Options

  datatype Vec3 = Vec3(x: real, y: real, z: real)

  /** The block coordinates fit a signed 32-bit integer. */
  predicate InRange(v: Vec3) {
    && -0x8000_0000 <= v.x.Floor <= 0x7fff_ffff
    && -0x8000_0000 <= v.y.Floor <= 0x7fff_ffff
    && -0x8000_0000 <= v.z.Floor <= 0x7fff_ffff
  }

  /** Arithmetic shift right: each place halves, rounding towards minus infinity. */
  function ShiftRight(n: int, places: nat): int
    decreases places
  {
    if places == 0 then n else ShiftRight(n / 2, places - 1)
  }

  function ChunkCoordinate(position: real): int {
    ShiftRight(position.Floor, 4)
  }

  /** The column's 16-block interval contains the position, on both sides of zero. */
  lemma ChunkCoordinateIsFloorDivision(position: real)
    ensures var c := ChunkCoordinate(position);
            && c == (position / 16.0).Floor
            && (16 * c) as real <= position < (16 * (c + 1)) as real
  {
    var n := position.Floor;
    var c := ChunkCoordinate(position);
    ShiftFour(n);
    assert n as real <= position < n as real + 1.0;
    assert (16 * c) as real <= n as real;
    assert n as real + 1.0 <= (16 * (c + 1)) as real;
    assert c as real <= position / 16.0 < (c + 1) as real;
  }

  lemma ShiftFour(n: int)
    ensures 16 * ShiftRight(n, 4) <= n < 16 * (ShiftRight(n, 4) + 1)
  {
    var a := n / 2;
    var b := a / 2;
    var c := b / 2;
    var d := c / 2;
    assert ShiftRight(c, 1) == ShiftRight(d, 0) == d;
    assert ShiftRight(n, 4) == ShiftRight(a, 3) == ShiftRight(b, 2) == ShiftRight(c, 1);
  }

  type Column = (int, int)

  predicate InsideWindow(c: Column, center: Column, radius: int) {
    && center.0 - radius <= c.0 <= center.0 + radius
    && center.1 - radius <= c.1 <= center.1 + radius
  }

  // ----- runtime ids of remote entities

  const SELF_RUNTIME_ID := 1

  predicate IsInt32(n: int) {
    -0x8000_0000 <= n <= 0x7fff_ffff
  }

  function ToUint32(n: int): nat {
    n % 0x1_0000_0000
  }

  function ToInt32(n: int): int {
    (n + 0x8000_0000) % 0x1_0000_0000 - 0x8000_0000
  }

  function RemoteRuntimeId(entityId: int): nat {
    ToUint32(entityId) + SELF_RUNTIME_ID
  }

  function CanonicalEntityId(runtimeId: nat): Option<int> {
    if runtimeId <= SELF_RUNTIME_ID || runtimeId > 0xffff_ffff + SELF_RUNTIME_ID then None
    else Some(ToInt32(ToUint32(runtimeId - SELF_RUNTIME_ID)))
  }

  lemma WidthsInvert(n: int, m: nat)
    ensures IsInt32(n) ==> ToInt32(ToUint32(n)) == n
    ensures m <= 0xffff_ffff ==> IsInt32(ToInt32(m)) && ToUint32(ToInt32(m)) == m == ToUint32(m)
  {
  }

  /** The client's own runtime id is never resolved, every other resolvable id names one
      entity, and an entity comes back unless its id is zero, which collides with the player. */
  lemma RuntimeIdsRoundTrip(entityId: int, runtimeId: nat)
    requires IsInt32(entityId)
    ensures CanonicalEntityId(RemoteRuntimeId(entityId)) == Some(entityId) <==> entityId != 0
    ensures RemoteRuntimeId(entityId) == SELF_RUNTIME_ID <==> entityId == 0
    ensures CanonicalEntityId(runtimeId).Some? ==>
              IsInt32(CanonicalEntityId(runtimeId).value) && RemoteRuntimeId(CanonicalEntityId(runtimeId).value) == runtimeId
  {
    WidthsInvert(entityId, 0);
    if CanonicalEntityId(runtimeId).Some? { WidthsInvert(0, runtimeId - SELF_RUNTIME_ID); }
    assert ToUint32(entityId) == 0 <==> entityId == 0;
    WidthsInvert(0, ToUint32(entityId));
  }
}
