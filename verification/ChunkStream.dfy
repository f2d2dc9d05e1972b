/**
 Streaming chunk columns around a moving player (bedrock/listener.go). The
 client is the set of columns it holds; it drops those outside the published
 window. Every write may fail: `limit` is the number of writes that still succeed.
 */
module ChunkStream {
  import opened Options
  import opened Position

  datatype Packet =
    | Publisher(x: int, y: int, z: int, radius: int)
    | LevelChunk(column: Column, dimension: int)
    | ChangeDimension(dimension: int)

  function Abs(n: int): int {
    if n < 0 then -n else n
  }

  /** Chebyshev distance: the ring around the centre on which a column lies. */
  function Ring(c: Column, center: Column): int {
    var dx, dz := Abs(c.0 - center.0), Abs(c.1 - center.1);
    if dx < dz then dz else dx
  }

  predicate Unrepeated(columns: seq<Column>) {
    forall i, j :: 0 <= i < j < |columns| ==> columns[i] != columns[j]
  }

  predicate NearestFirst(columns: seq<Column>, center: Column) {
    forall i, j :: 0 <= i < j < |columns| ==> Ring(columns[i], center) <= Ring(columns[j], center)
  }

  predicate Wanted(c: Column, center: Column, skipCenter: bool) {
    !(skipCenter && c == center)
  }

  // ----- the square, ring by ring

  /** The square's loops have passed column c when they stand at (ring, dx, dz). */
  predicate Passed(c: Column, center: Column, ring: int, dx: int, dz: int) {
    || Ring(c, center) < ring
    || (Ring(c, center) == ring
        && (c.0 - center.0 < dx || (c.0 - center.0 == dx && c.1 - center.1 < dz)))
  }

  /** In the order of the square's loops column a comes before column b. */
  predicate Earlier(a: Column, b: Column, center: Column) {
    Passed(a, center, Ring(b, center), b.0 - center.0, b.1 - center.1)
  }

  predicate InLoopOrder(columns: seq<Column>, center: Column) {
    forall i, j :: 0 <= i < j < |columns| ==> Earlier(columns[i], columns[j], center)
  }

  /** The loop order visits nearer rings first and nothing twice. */
  lemma LoopOrderIsNearestFirst(columns: seq<Column>, center: Column)
    requires InLoopOrder(columns, center)
    ensures NearestFirst(columns, center) && Unrepeated(columns)
  {
    forall i, j | 0 <= i < j < |columns|
      ensures Ring(columns[i], center) <= Ring(columns[j], center) && columns[i] != columns[j]
    {
      assert Earlier(columns[i], columns[j], center);
    }
  }

  /** A sequence cut short: nothing that comes before one of its columns is missing. */
  ghost predicate CutShort(sent: seq<Column>, center: Column, skipCenter: bool) {
    forall c: Column, d: Column :: d in sent && Earlier(c, d, center) && Wanted(c, center, skipCenter) ==> c in sent
  }

  ghost predicate SentExactly(sent: seq<Column>, center: Column, skipCenter: bool, ring: int, dx: int, dz: int) {
    && InLoopOrder(sent, center)
    && forall c: Column :: c in sent <==> Passed(c, center, ring, dx, dz) && Wanted(c, center, skipCenter)
  }

  lemma SentOneMore(sent: seq<Column>, center: Column, skipCenter: bool, ring: int, dx: int, dz: int)
    requires SentExactly(sent, center, skipCenter, ring, dx, dz)
    requires -ring <= dx <= ring && -ring <= dz <= ring
    ensures var c := (center.0 + dx, center.1 + dz);
            SentExactly(if Ring(c, center) == ring && Wanted(c, center, skipCenter) then sent + [c] else sent,
                        center, skipCenter, ring, dx, dz + 1)
  {
    var c := (center.0 + dx, center.1 + dz);
    forall k | 0 <= k < |sent| ensures Passed(sent[k], center, ring, dx, dz) {
      assert sent[k] in sent;
    }
    var after := if Ring(c, center) == ring && Wanted(c, center, skipCenter) then sent + [c] else sent;
    forall d: Column
      ensures d in after <==> Passed(d, center, ring, dx, dz + 1) && Wanted(d, center, skipCenter)
    {
      assert d in after <==> d in sent || (d == c && |after| > |sent|);
      assert Passed(d, center, ring, dx, dz + 1) <==>
             Passed(d, center, ring, dx, dz) || (d == c && Ring(c, center) == ring);
    }
  }

  lemma SentSamePassed(sent: seq<Column>, center: Column, skipCenter: bool,
                       ring: int, dx: int, dz: int, ring': int, dx': int, dz': int)
    requires SentExactly(sent, center, skipCenter, ring, dx, dz)
    requires forall c: Column :: Passed(c, center, ring, dx, dz) <==> Passed(c, center, ring', dx', dz')
    ensures SentExactly(sent, center, skipCenter, ring', dx', dz')
  {
  }

  /** One row of a ring: the columns at offset dx, from dz = -ring to ring. */
  method SendRow(center: Column, skipCenter: bool, ring: int, dx: int, limit: nat, before: seq<Column>)
    returns (sent: seq<Column>, ok: bool)
    requires -ring <= dx <= ring && |before| <= limit
    requires SentExactly(before, center, skipCenter, ring, dx, -ring)
    ensures |sent| <= limit
    ensures ok ==> SentExactly(sent, center, skipCenter, ring, dx + 1, -ring)
    ensures !ok ==> |sent| == limit && exists dz :: dz <= ring && SentExactly(sent, center, skipCenter, ring, dx, dz)
  {
    sent := before;
    var dz := -ring;
    while dz <= ring
      invariant -ring <= dz <= ring + 1 && |sent| <= limit
      invariant SentExactly(sent, center, skipCenter, ring, dx, dz)
      decreases ring - dz
    {
      SentOneMore(sent, center, skipCenter, ring, dx, dz);
      if !((ring > 0 && Abs(dx) != ring && Abs(dz) != ring) || (skipCenter && dx == 0 && dz == 0)) {
        if |sent| == limit {
          return sent, false;
        }
        sent := sent + [(center.0 + dx, center.1 + dz)];
      }
      dz := dz + 1;
    }
    SentSamePassed(sent, center, skipCenter, ring, dx, ring + 1, ring, dx + 1, -ring);
    ok := true;
  }

  /** Emits every column of the square once, nearest rings first, without the centre when it
      is skipped; a failing write stops it after `limit` columns. */
  method SendChunkSquare(center: Column, radius: int, skipCenter: bool, limit: nat)
    returns (sent: seq<Column>, ok: bool)
    ensures InLoopOrder(sent, center) && Unrepeated(sent) && NearestFirst(sent, center)
    ensures ok ==> forall c: Column :: (c in sent <==>
              InsideWindow(c, center, radius) && Wanted(c, center, skipCenter))
    ensures !ok ==> |sent| == limit && forall c: Column :: c in sent ==>
              InsideWindow(c, center, radius) && Wanted(c, center, skipCenter)
    ensures !ok ==> CutShort(sent, center, skipCenter)
  {
    sent := [];
    var ring := 0;
    while ring <= radius
      invariant 0 <= ring && (ring <= radius + 1 || (radius < 0 && ring == 0)) && |sent| <= limit
      invariant SentExactly(sent, center, skipCenter, ring, -ring, -ring)
      decreases radius - ring
    {
      var dx := -ring;
      while dx <= ring
        invariant -ring <= dx <= ring + 1 && |sent| <= limit
        invariant SentExactly(sent, center, skipCenter, ring, dx, -ring)
        decreases ring - dx
      {
        sent, ok := SendRow(center, skipCenter, ring, dx, limit, sent);
        if !ok {
          LoopOrderIsNearestFirst(sent, center);
          return;
        }
        dx := dx + 1;
      }
      SentSamePassed(sent, center, skipCenter, ring, ring + 1, -ring, ring + 1, -(ring + 1), -(ring + 1));
      ring := ring + 1;
    }
    ok := true;
    PassedAll(center, radius, ring);
    LoopOrderIsNearestFirst(sent, center);
  }

  lemma PassedAll(center: Column, radius: int, ring: int)
    requires ring == radius + 1 || (radius < 0 && ring == 0)
    ensures forall c: Column :: Passed(c, center, ring, -ring, -ring) <==> InsideWindow(c, center, radius)
  {
  }

  // ----- the part of a moved window that was not covered before

  predicate Scanned(c: Column, center: Column, radius: int, dx: int, dz: int) {
    && InsideWindow(c, center, radius)
    && (c.0 - center.0 < dx || (c.0 - center.0 == dx && c.1 - center.1 < dz))
  }

  predicate Entered(c: Column, previous: Column, current: Column, radius: int) {
    InsideWindow(c, current, radius) && !InsideWindow(c, previous, radius)
  }

  predicate InRows(columns: seq<Column>) {
    forall i, j :: 0 <= i < j < |columns| ==> RowEarlier(columns[i], columns[j])
  }

  predicate RowEarlier(a: Column, b: Column) {
    a.0 < b.0 || (a.0 == b.0 && a.1 < b.1)
  }

  method SendEnteredChunks(previous: Column, current: Column, radius: int, limit: nat)
    returns (sent: seq<Column>, ok: bool)
    ensures InRows(sent) && Unrepeated(sent)
    ensures ok ==> forall c: Column :: (c in sent <==> Entered(c, previous, current, radius))
    ensures !ok ==> |sent| == limit && forall c: Column :: c in sent ==> Entered(c, previous, current, radius)
    ensures !ok ==> forall c: Column, d: Column ::
              d in sent && RowEarlier(c, d) && Entered(c, previous, current, radius) ==> c in sent
  {
    sent := [];
    var dx := -radius;
    while dx <= radius
      invariant -radius <= dx <= radius + 1 || (radius < 0 && dx == -radius)
      invariant |sent| <= limit
      invariant InRows(sent)
      invariant forall c: Column :: c in sent <==>
        Scanned(c, current, radius, dx, -radius) && !InsideWindow(c, previous, radius)
      decreases radius - dx
    {
      var dz := -radius;
      while dz <= radius
        invariant -radius <= dz <= radius + 1
        invariant |sent| <= limit
        invariant InRows(sent)
        invariant forall c: Column :: c in sent <==>
          Scanned(c, current, radius, dx, dz) && !InsideWindow(c, previous, radius)
        decreases radius - dz
      {
        var c := (current.0 + dx, current.1 + dz);
        ghost var before := sent;
        if !InsideWindow(c, previous, radius) {
          if |sent| == limit {
            return sent, false;
          }
          assert forall k :: 0 <= k < |sent| ==> sent[k] in sent && RowEarlier(sent[k], c);
          sent := sent + [c];
        }
        forall d: Column
          ensures d in sent <==> Scanned(d, current, radius, dx, dz + 1) && !InsideWindow(d, previous, radius)
        {
          assert d in before <==> Scanned(d, current, radius, dx, dz) && !InsideWindow(d, previous, radius);
          assert d in sent <==> d in before || (d == c && !InsideWindow(c, previous, radius));
          assert Scanned(d, current, radius, dx, dz + 1) <==> Scanned(d, current, radius, dx, dz) || d == c;
        }
        dz := dz + 1;
      }
      forall c: Column
        ensures Scanned(c, current, radius, dx, dz) <==> Scanned(c, current, radius, dx + 1, -radius)
      {
      }
      dx := dx + 1;
    }
    ok := true;
  }

  // ----- how many columns

  /** The columns of a rectangle, both bounds included. */
  ghost function Rectangle(x0: int, x1: int, z0: int, z1: int): set<Column> {
    set x, z | x0 <= x <= x1 && z0 <= z <= z1 :: (x, z)
  }

  function Width(low: int, high: int): nat {
    if low <= high then high - low + 1 else 0
  }

  lemma {:induction false} StripSize(x: int, z0: int, z1: int)
    ensures |Rectangle(x, x, z0, z1)| == Width(z0, z1)
    decreases Width(z0, z1)
  {
    if z0 > z1 {
      assert Rectangle(x, x, z0, z1) == {};
    } else {
      StripSize(x, z0, z1 - 1);
      assert Rectangle(x, x, z0, z1) == Rectangle(x, x, z0, z1 - 1) + {(x, z1)};
    }
  }

  lemma {:induction false} RectangleSize(x0: int, x1: int, z0: int, z1: int)
    ensures |Rectangle(x0, x1, z0, z1)| == Width(x0, x1) * Width(z0, z1)
    decreases Width(x0, x1)
  {
    if x0 > x1 {
      assert Rectangle(x0, x1, z0, z1) == {};
    } else {
      RectangleSize(x0, x1 - 1, z0, z1);
      StripSize(x1, z0, z1);
      RectangleSplits(x0, x1, z0, z1);
      var n, m := Width(x0, x1 - 1), Width(z0, z1);
      assert Width(x0, x1) == n + 1;
      assert (n + 1) * m == n * m + m;
    }
  }

  lemma RectangleSplits(x0: int, x1: int, z0: int, z1: int)
    requires x0 <= x1
    ensures |Rectangle(x0, x1, z0, z1)| == |Rectangle(x0, x1 - 1, z0, z1)| + |Rectangle(x1, x1, z0, z1)|
  {
    var left, strip := Rectangle(x0, x1 - 1, z0, z1), Rectangle(x1, x1, z0, z1);
    assert Rectangle(x0, x1, z0, z1) == left + strip;
    assert left !! strip;
  }

  lemma {:induction false} UnrepeatedSize(columns: seq<Column>)
    requires Unrepeated(columns)
    ensures |columns| == |set c | c in columns|
  {
    if columns != [] {
      var n := |columns| - 1;
      var front := columns[..n];
      UnrepeatedSize(front);
      assert columns == front + [columns[n]];
      assert (set c | c in columns) == (set c | c in front) + {columns[n]};
      assert columns[n] !in front;
    }
  }

  ghost function Window(center: Column, radius: int): set<Column> {
    Rectangle(center.0 - radius, center.0 + radius, center.1 - radius, center.1 + radius)
  }

  lemma WindowSize(center: Column, radius: nat)
    ensures |Window(center, radius)| == (2 * radius + 1) * (2 * radius + 1)
  {
    RectangleSize(center.0 - radius, center.0 + radius, center.1 - radius, center.1 + radius);
    assert Width(center.0 - radius, center.0 + radius) == Width(center.1 - radius, center.1 + radius) == 2 * radius + 1;
  }

  /** A complete square has (2r + 1)^2 columns, one fewer without its centre. */
  lemma SquareSize(sent: seq<Column>, center: Column, radius: nat, skipCenter: bool)
    requires Unrepeated(sent)
    requires forall c: Column :: c in sent <==> InsideWindow(c, center, radius) && Wanted(c, center, skipCenter)
    ensures |sent| == (2 * radius + 1) * (2 * radius + 1) - (if skipCenter then 1 else 0)
  {
    UnrepeatedSize(sent);
    var window := Window(center, radius);
    WindowSize(center, radius);
    assert (set c | c in sent) == if skipCenter then window - {center} else window;
    assert center in window;
  }

  /** A moved window sends the whole window less the overlap of the two. */
  lemma EnteredSize(sent: seq<Column>, previous: Column, current: Column, radius: nat)
    requires Unrepeated(sent)
    requires forall c: Column :: c in sent <==> Entered(c, previous, current, radius)
    ensures var side := 2 * radius + 1;
            |sent| == side * side - Shared(side, Abs(current.0 - previous.0)) * Shared(side, Abs(current.1 - previous.1))
  {
    UnrepeatedSize(sent);
    EnteredSet(sent, previous, current, radius);
    DifferenceSize(Window(current, radius), Overlap(previous, current, radius));
    WindowSize(current, radius);
    OverlapSize(previous, current, radius);
  }

  lemma EnteredSet(sent: seq<Column>, previous: Column, current: Column, radius: nat)
    requires forall c: Column :: c in sent <==> Entered(c, previous, current, radius)
    ensures Overlap(previous, current, radius) <= Window(current, radius)
    ensures (set c | c in sent) == Window(current, radius) - Overlap(previous, current, radius)
  {
    assert forall c: Column :: c in Overlap(previous, current, radius) <==>
        InsideWindow(c, current, radius) && InsideWindow(c, previous, radius);
    assert forall c: Column :: c in Window(current, radius) <==> InsideWindow(c, current, radius);
  }

  lemma DifferenceSize(a: set<Column>, b: set<Column>)
    requires b <= a
    ensures |a - b| == |a| - |b|
  {
    assert a == (a - b) + b;
  }

  ghost function Overlap(a: Column, b: Column, radius: nat): set<Column> {
    Rectangle(if a.0 < b.0 then b.0 - radius else a.0 - radius, if a.0 < b.0 then a.0 + radius else b.0 + radius,
              if a.1 < b.1 then b.1 - radius else a.1 - radius, if a.1 < b.1 then a.1 + radius else b.1 + radius)
  }

  /** How far two windows of one side reach into each other along one axis. */
  function Shared(side: nat, distance: int): nat {
    if 0 <= distance < side then side - distance else 0
  }

  lemma OverlapSize(a: Column, b: Column, radius: nat)
    ensures |Overlap(a, b, radius)|
            == Shared(2 * radius + 1, Abs(b.0 - a.0)) * Shared(2 * radius + 1, Abs(b.1 - a.1))
  {
    RectangleSize(if a.0 < b.0 then b.0 - radius else a.0 - radius, if a.0 < b.0 then a.0 + radius else b.0 + radius,
                  if a.1 < b.1 then b.1 - radius else a.1 - radius, if a.1 < b.1 then a.1 + radius else b.1 + radius);
  }

  // ----- the stream and the client

  /** The server's cursor: the centre and the dimension it last streamed. */
  datatype Cursor = Cursor(center: Column, dimension: int)

  datatype Client = Client(dimension: int, columns: set<Column>)

  function CenterOf(position: Vec3): Column {
    (ChunkCoordinate(position.x), ChunkCoordinate(position.z))
  }

  function PublisherFor(position: Vec3, radius: nat): Packet {
    Publisher(position.x.Floor, position.y.Floor, position.z.Floor, 16 * radius)
  }

  function LevelChunks(columns: seq<Column>, dimension: int): seq<Packet> {
    seq(|columns|, i requires 0 <= i < |columns| => LevelChunk(columns[i], dimension))
  }

  /** The client drops what lies outside a published window, keeps every column it is sent for
      the dimension it is in, and forgets all of them when it changes dimension. */
  function Receive(client: Client, packet: Packet): Client {
    match packet
    case Publisher(x, y, z, radius) =>
      client.(columns := set c | c in client.columns
                           && InsideWindow(c, (ShiftRight(x, 4), ShiftRight(z, 4)), ShiftRight(radius, 4)))
    case LevelChunk(column, dimension) =>
      if dimension == client.dimension then client.(columns := client.columns + {column}) else client
    case ChangeDimension(dimension) =>
      Client(dimension, {})
  }

  function ReceiveAll(client: Client, packets: seq<Packet>): Client {
    if packets == [] then client
    else Receive(ReceiveAll(client, packets[..|packets| - 1]), packets[|packets| - 1])
  }

  /** The column is one a successful update sends. */
  predicate Due(before: Cursor, center: Column, dimension: int, radius: nat, c: Column) {
    InsideWindow(c, center, radius) && (dimension == before.dimension ==> !InsideWindow(c, before.center, radius))
  }

  /** The order in which an update sends its columns. */
  predicate SentEarlier(before: Cursor, center: Column, dimension: int, a: Column, b: Column) {
    if dimension == before.dimension then RowEarlier(a, b) else Earlier(a, b, center)
  }

  /** Due columns in the order they are sent, with none left out before the last one. */
  ghost predicate PartOf(before: Cursor, center: Column, dimension: int, radius: nat, columns: seq<Column>) {
    && (forall i, j :: 0 <= i < j < |columns| ==> SentEarlier(before, center, dimension, columns[i], columns[j]))
    && (forall c :: c in columns ==> Due(before, center, dimension, radius, c))
    && (forall c: Column, d: Column ::
          d in columns && SentEarlier(before, center, dimension, c, d) && Due(before, center, dimension, radius, c) ==>
            c in columns)
  }

  ghost predicate AllOf(before: Cursor, center: Column, dimension: int, radius: nat, columns: seq<Column>) {
    && PartOf(before, center, dimension, radius, columns)
    && forall c: Column :: Due(before, center, dimension, radius, c) ==> c in columns
  }

  /** What a successful update sends: nothing when the centre and dimension are unchanged,
      otherwise the new window and then every due column once, in order. */
  ghost predicate UpdateSends(before: Cursor, position: Vec3, dimension: int, radius: nat, sent: seq<Packet>) {
    if Cursor(CenterOf(position), dimension) == before then sent == []
    else exists columns: seq<Column> ::
      && sent == [PublisherFor(position, radius)] + LevelChunks(columns, dimension)
      && AllOf(before, CenterOf(position), dimension, radius, columns)
  }

  /** What a failed update may have sent: the beginning of what the successful one would send. */
  ghost predicate UpdateSendsPart(before: Cursor, position: Vec3, dimension: int, radius: nat, sent: seq<Packet>) {
    && Cursor(CenterOf(position), dimension) != before
    && (sent == []
        || exists columns: seq<Column> ::
             && sent == [PublisherFor(position, radius)] + LevelChunks(columns, dimension)
             && PartOf(before, CenterOf(position), dimension, radius, columns))
  }

  lemma SendingOrderIsStrict(before: Cursor, center: Column, dimension: int, a: Column, b: Column)
    ensures SentEarlier(before, center, dimension, a, b) ==> !SentEarlier(before, center, dimension, b, a) && a != b
  {
  }

  lemma {:induction false} PartIsPrefix(before: Cursor, center: Column, dimension: int, radius: nat,
                                        part: seq<Column>, all: seq<Column>, n: nat)
    requires PartOf(before, center, dimension, radius, part) && AllOf(before, center, dimension, radius, all)
    requires n <= |part|
    ensures n <= |all| && part[..n] == all[..n]
  {
    if n > 0 {
      var i := n - 1;
      PartIsPrefix(before, center, dimension, radius, part, all, i);
      assert part[i] in part && part[i] in all;
      var j :| 0 <= j < |all| && all[j] == part[i];
      if j < i {
        assert part[j] == part[..i][j] == all[..i][j] == all[j];
        SendingOrderIsStrict(before, center, dimension, part[j], part[i]);
      }
      if j > i {
        assert all[i] in part;
        var k :| 0 <= k < |part| && part[k] == all[i];
        SendingOrderIsStrict(before, center, dimension, all[i], all[j]);
        if k < i {
          assert all[k] == all[..i][k] == part[..i][k] == all[i];
          SendingOrderIsStrict(before, center, dimension, all[k], all[i]);
        } else if k > i {
          SendingOrderIsStrict(before, center, dimension, part[i], part[k]);
        }
      }
    }
  }

  /** What a failed update sent is the beginning of what a successful one sends. */
  lemma FailedUpdateIsPrefix(before: Cursor, position: Vec3, dimension: int, radius: nat,
                             part: seq<Packet>, all: seq<Packet>)
    requires UpdateSendsPart(before, position, dimension, radius, part)
    requires UpdateSends(before, position, dimension, radius, all)
    ensures part <= all
  {
    if part != [] {
      var some :|
        && part == [PublisherFor(position, radius)] + LevelChunks(some, dimension)
        && PartOf(before, CenterOf(position), dimension, radius, some);
      var columns :|
        && all == [PublisherFor(position, radius)] + LevelChunks(columns, dimension)
        && AllOf(before, CenterOf(position), dimension, radius, columns);
      PartIsPrefix(before, CenterOf(position), dimension, radius, some, columns, |some|);
      assert some == columns[..|some|];
    }
  }

  /** What an update sends starts with the new window, and every column that follows lies inside it. */
  lemma WindowIsPublishedFirst(before: Cursor, position: Vec3, dimension: int, radius: nat, sent: seq<Packet>)
    requires || UpdateSends(before, position, dimension, radius, sent)
             || UpdateSendsPart(before, position, dimension, radius, sent)
    requires sent != []
    ensures sent[0] == Publisher(position.x.Floor, position.y.Floor, position.z.Floor, 16 * radius)
    ensures forall i :: 1 <= i < |sent| ==>
              && sent[i].LevelChunk? && sent[i].dimension == dimension
              && InsideWindow(sent[i].column, (ShiftRight(sent[0].x, 4), ShiftRight(sent[0].z, 4)),
                              ShiftRight(sent[0].radius, 4))
  {
    ShiftFour(16 * radius);
    var columns :|
      && sent == [PublisherFor(position, radius)] + LevelChunks(columns, dimension)
      && PartOf(before, CenterOf(position), dimension, radius, columns);
    forall i | 1 <= i < |sent|
      ensures sent[i] == LevelChunk(columns[i - 1], dimension) && InsideWindow(columns[i - 1], CenterOf(position), radius)
    {
      PartIsDue(before, CenterOf(position), dimension, radius, columns, columns[i - 1]);
    }
  }

  lemma PartIsDue(before: Cursor, center: Column, dimension: int, radius: nat, columns: seq<Column>, c: Column)
    requires PartOf(before, center, dimension, radius, columns) && c in columns
    ensures InsideWindow(c, center, radius)
  {
    assert Due(before, center, dimension, radius, c);
  }

  class Stream {
    var center: Column
    var dimension: int

    ghost function Here(): Cursor
      reads this
    {
      Cursor(center, dimension)
    }

    constructor (center: Column, dimension: int)
      ensures Here() == Cursor(center, dimension)
    {
      this.center, this.dimension := center, dimension;
    }

    /** Follows the player. A failed write leaves the cursor where it was. */
    method UpdateChunkStream(position: Vec3, radius: nat, dimension: int, limit: nat)
      returns (sent: seq<Packet>, ok: bool)
      requires InRange(position) && radius < 0x400_0000
      modifies this
      ensures ok ==> UpdateSends(old(Here()), position, dimension, radius, sent)
      ensures ok ==> Here() == Cursor(CenterOf(position), dimension)
      ensures !ok ==> Here() == old(Here()) && |sent| == limit
                      && UpdateSendsPart(old(Here()), position, dimension, radius, sent)
    {
      var next := (ChunkCoordinate(position.x), ChunkCoordinate(position.z));
      if next == center && dimension == this.dimension {
        return [], true;
      }
      if limit == 0 {
        return [], false;
      }
      var columns;
      if dimension != this.dimension {
        columns, ok := SendChunkSquare(next, radius, false, limit - 1);
      } else {
        columns, ok := SendEnteredChunks(center, next, radius, limit - 1);
      }
      sent := [PublisherFor(position, radius)] + LevelChunks(columns, dimension);
      if !ok {
        return;
      }
      center := next;
      this.dimension := dimension;
    }
  }

  lemma {:induction false} ReceiveChunks(client: Client, columns: seq<Column>)
    ensures ReceiveAll(client, LevelChunks(columns, client.dimension))
            == client.(columns := client.columns + set c | c in columns)
  {
    var packets := LevelChunks(columns, client.dimension);
    if columns == [] {
    } else {
      var n := |columns| - 1;
      assert packets[..n] == LevelChunks(columns[..n], client.dimension);
      ReceiveChunks(client, columns[..n]);
      ColumnSetStep(columns);
    }
  }

  lemma ColumnSetStep(columns: seq<Column>)
    requires columns != []
    ensures var n := |columns| - 1;
            (set c | c in columns) == (set c | c in columns[..n]) + {columns[n]}
  {
    assert columns == columns[..|columns| - 1] + [columns[|columns| - 1]];
  }

  lemma {:induction false} ReceiveAppends(client: Client, a: seq<Packet>, b: seq<Packet>)
    ensures ReceiveAll(client, a + b) == ReceiveAll(ReceiveAll(client, a), b)
  {
    if b == [] {
      assert a + b == a;
    } else {
      var n := |b| - 1;
      assert (a + b)[..|a + b| - 1] == a + b[..n];
      ReceiveAppends(client, a, b[..n]);
    }
  }

  /** The published window is the window around the server's centre. */
  lemma PublisherMatchesCenter(client: Client, position: Vec3, radius: nat)
    ensures Receive(client, PublisherFor(position, radius))
            == client.(columns := set c | c in client.columns && InsideWindow(c, CenterOf(position), radius))
  {
    ShiftFour(16 * radius);
  }

  lemma ReceiveUpdate(client: Client, position: Vec3, radius: nat, columns: seq<Column>)
    ensures ReceiveAll(client, [PublisherFor(position, radius)] + LevelChunks(columns, client.dimension))
            == client.(columns := (set c | c in client.columns && InsideWindow(c, CenterOf(position), radius))
                                  + set c | c in columns)
  {
    var publisher := [PublisherFor(position, radius)];
    assert publisher[..0] == [];
    assert ReceiveAll(client, publisher) == Receive(ReceiveAll(client, []), publisher[0]);
    PublisherMatchesCenter(client, position, radius);
    ReceiveAppends(client, publisher, LevelChunks(columns, client.dimension));
    ReceiveChunks(ReceiveAll(client, publisher), columns);
  }

  /** The client has the column exactly when it lies in the window. */
  predicate RightAbout(cursor: Cursor, client: Client, c: Column, radius: nat) {
    c in client.columns <==> InsideWindow(c, cursor.center, radius)
  }

  /** The client mirrors the server: same dimension, exactly the window around the centre. */
  ghost predicate InStep(cursor: Cursor, client: Client, radius: nat) {
    && client.dimension == cursor.dimension
    && forall c: Column :: RightAbout(cursor, client, c, radius)
  }

  /** Nothing the packets carry is held already. */
  predicate NothingResent(client: Client, sent: seq<Packet>) {
    forall i :: 0 <= i < |sent| && sent[i].LevelChunk? ==> sent[i].column !in client.columns
  }

  /** The client has at least the window. */
  ghost predicate HoldsWindow(cursor: Cursor, client: Client, radius: nat) {
    && client.dimension == cursor.dimension
    && forall c: Column :: InsideWindow(c, cursor.center, radius) ==> c in client.columns
  }

  /** An update that moves the cursor leaves a client of its dimension with exactly the new window,
      provided that, unless the cursor changes dimension too, the client had all of the old one. */
  lemma UpdateRestores(before: Cursor, client: Client, position: Vec3, dimension: int, radius: nat, sent: seq<Packet>)
    requires client.dimension == dimension
    requires dimension == before.dimension ==> HoldsWindow(before, client, radius)
    requires UpdateSends(before, position, dimension, radius, sent)
    ensures var after := Cursor(CenterOf(position), dimension);
            if after == before then sent == [] else InStep(after, ReceiveAll(client, sent), radius)
    ensures InStep(before, client, radius) || client.columns == {} ==> NothingResent(client, sent)
  {
    if Cursor(CenterOf(position), dimension) != before {
      var columns :|
        && sent == [PublisherFor(position, radius)] + LevelChunks(columns, dimension)
        && AllOf(before, CenterOf(position), dimension, radius, columns);
      ReceiveUpdate(client, position, radius, columns);
      MirrorsWindow(before, client, CenterOf(position), radius, columns);
      if InStep(before, client, radius) {
        forall i | 0 <= i < |sent| && sent[i].LevelChunk? ensures sent[i].column !in client.columns {
          DueIsNotHeld(before, client, CenterOf(position), radius, columns[i - 1]);
        }
      }
    }
  }

  /** The old columns that lie in the new window and the ones due make up the new window. */
  lemma MirrorsWindow(before: Cursor, client: Client, center: Column, radius: nat, columns: seq<Column>)
    requires client.dimension == before.dimension ==> HoldsWindow(before, client, radius)
    requires forall c :: c in columns <==> Due(before, center, client.dimension, radius, c)
    ensures var kept := set c | c in client.columns && InsideWindow(c, center, radius);
            InStep(Cursor(center, client.dimension), client.(columns := kept + set c | c in columns), radius)
  {
  }

  lemma DueIsNotHeld(before: Cursor, client: Client, center: Column, radius: nat, c: Column)
    requires InStep(before, client, radius) && Due(before, center, client.dimension, radius, c)
    ensures c !in client.columns
  {
    assert RightAbout(before, client, c, radius);
  }

  // ----- runs: updates, and packets from elsewhere between them

  /** One update of a run: what reached the client from elsewhere since the previous update (columns
      of another goroutine, the packets of a change of dimension), where the player is, and what
      the update sent. */
  datatype Update = Update(others: seq<Packet>, position: Vec3, dimension: int, sent: seq<Packet>)

  function CursorAfter(start: Cursor, updates: seq<Update>): Cursor {
    if updates == [] then start
    else
      var last := updates[|updates| - 1];
      Cursor(CenterOf(last.position), last.dimension)
  }

  function ClientAfter(start: Client, updates: seq<Update>): Client {
    if updates == [] then start
    else
      var last := updates[|updates| - 1];
      ReceiveAll(ReceiveAll(ClientAfter(start, updates[..|updates| - 1]), last.others), last.sent)
  }

  /** Every update sent what a successful UpdateChunkStream sends. */
  ghost predicate Streamed(start: Cursor, updates: seq<Update>, radius: nat) {
    forall i :: 0 <= i < |updates| ==>
      UpdateSends(CursorAfter(start, updates[..i]), updates[i].position, updates[i].dimension, radius, updates[i].sent)
  }

  lemma StreamedFront(start: Cursor, updates: seq<Update>, radius: nat)
    requires updates != [] && Streamed(start, updates, radius)
    ensures var n, last := |updates| - 1, updates[|updates| - 1];
            && Streamed(start, updates[..n], radius)
            && UpdateSends(CursorAfter(start, updates[..n]), last.position, last.dimension, radius, last.sent)
  {
    var n := |updates| - 1;
    assert forall i :: 0 <= i < n ==> updates[..n][..i] == updates[..i] && updates[..n][i] == updates[i];
  }

  /** The dimension of a client that received the packets. */
  function DimensionAfter(dimension: int, packets: seq<Packet>): int {
    if packets == [] then dimension
    else
      var n := |packets| - 1;
      if packets[n].ChangeDimension? then packets[n].dimension else DimensionAfter(dimension, packets[..n])
  }

  function ClientDimension(dimension: int, updates: seq<Update>): int {
    if updates == [] then dimension
    else DimensionAfter(ClientDimension(dimension, updates[..|updates| - 1]), updates[|updates| - 1].others)
  }

  /** What packets received in a dimension last did to a column: brought it, dropped it, or neither. */
  function LastWord(packets: seq<Packet>, c: Column, dimension: int): Option<bool> {
    if packets == [] then None
    else
      var n := |packets| - 1;
      var earlier := LastWord(packets[..n], c, dimension);
      match packets[n]
      case Publisher(x, y, z, radius) =>
        if InsideWindow(c, (ShiftRight(x, 4), ShiftRight(z, 4)), ShiftRight(radius, 4)) then earlier else Some(false)
      case LevelChunk(column, brought) =>
        if column == c && brought == DimensionAfter(dimension, packets[..n]) then Some(true) else earlier
      case ChangeDimension(to) =>
        Some(false)
  }

  /** The other packets agree with the stream about a column: an update that changes the dimension,
      or brings or drops the column, has the last word; otherwise whatever came from elsewhere
      since did with the column as the window asks, or nothing did and they agreed before. */
  ghost predicate Agrees(start: Cursor, dimension: int, updates: seq<Update>, c: Column, radius: nat) {
    updates == [] ||
    var n, last := |updates| - 1, updates[|updates| - 1];
    var before, after := CursorAfter(start, updates[..n]), CursorAfter(start, updates);
    || after.dimension != before.dimension
    || (after != before && !(InsideWindow(c, before.center, radius) && InsideWindow(c, after.center, radius)))
    || var word := LastWord(last.others, c, ClientDimension(dimension, updates[..n]));
       if word.Some? then word.value == InsideWindow(c, after.center, radius)
       else Agrees(start, dimension, updates[..n], c, radius)
  }

  lemma {:induction false} LastWordDecides(client: Client, packets: seq<Packet>, c: Column)
    ensures ReceiveAll(client, packets).dimension == DimensionAfter(client.dimension, packets)
    ensures var word := LastWord(packets, c, client.dimension);
            && (c in ReceiveAll(client, packets).columns <==> if word.Some? then word.value else c in client.columns)
            && (word.None? ==> DimensionAfter(client.dimension, packets) == client.dimension)
  {
    if packets == [] {
    } else {
      LastWordDecides(client, packets[..|packets| - 1], c);
    }
  }

  /** What one update does to one column of a client in the update's dimension. */
  lemma UpdateAtColumn(before: Cursor, client: Client, position: Vec3, dimension: int, radius: nat,
                       sent: seq<Packet>, c: Column)
    requires client.dimension == dimension && UpdateSends(before, position, dimension, radius, sent)
    ensures var center := CenterOf(position);
            c in ReceiveAll(client, sent).columns <==>
              if Cursor(center, dimension) == before then c in client.columns
              else InsideWindow(c, center, radius)
                   && (c in client.columns || Due(before, center, dimension, radius, c))
  {
    if Cursor(CenterOf(position), dimension) != before {
      var columns :|
        && sent == [PublisherFor(position, radius)] + LevelChunks(columns, dimension)
        && AllOf(before, CenterOf(position), dimension, radius, columns);
      ReceiveUpdate(client, position, radius, columns);
    }
  }

  lemma {:induction false} SentKeepsDimension(client: Client, before: Cursor, position: Vec3, dimension: int, radius: nat,
                                              sent: seq<Packet>)
    requires UpdateSends(before, position, dimension, radius, sent)
    ensures ReceiveAll(client, sent).dimension == client.dimension
  {
    LastWordDecides(client, sent, (0, 0));
    NoChange(client.dimension, sent);
  }

  lemma {:induction false} NoChange(dimension: int, packets: seq<Packet>)
    requires forall packet :: packet in packets ==> !packet.ChangeDimension?
    ensures DimensionAfter(dimension, packets) == dimension
  {
    if packets == [] {
    } else {
      NoChange(dimension, packets[..|packets| - 1]);
    }
  }

  lemma {:induction false} ClientDimensionIs(start: Cursor, client: Client, updates: seq<Update>, radius: nat)
    requires Streamed(start, updates, radius)
    ensures ClientAfter(client, updates).dimension == ClientDimension(client.dimension, updates)
  {
    if updates != [] {
      var n := |updates| - 1;
      StreamedFront(start, updates, radius);
      ClientDimensionIs(start, client, updates[..n], radius);
      var held, last := ClientAfter(client, updates[..n]), updates[n];
      LastWordDecides(held, last.others, (0, 0));
      SentKeepsDimension(ReceiveAll(held, last.others), CursorAfter(start, updates[..n]), last.position,
                         last.dimension, radius, last.sent);
    }
  }

  /** A client in the cursor's dimension is right about a column exactly when the others agree. */
  lemma {:induction false} RightAboutExactly(start: Cursor, client: Client, updates: seq<Update>, c: Column, radius: nat)
    requires InStep(start, client, radius) && Streamed(start, updates, radius)
    requires ClientAfter(client, updates).dimension == CursorAfter(start, updates).dimension
    ensures RightAbout(CursorAfter(start, updates), ClientAfter(client, updates), c, radius)
            <==> Agrees(start, client.dimension, updates, c, radius)
  {
    if updates != [] {
      var n := |updates| - 1;
      StreamedFront(start, updates, radius);
      ClientDimensionIs(start, client, updates[..n], radius);
      var before, held, last := CursorAfter(start, updates[..n]), ClientAfter(client, updates[..n]), updates[n];
      LastWordDecides(held, last.others, c);
      var met := ReceiveAll(held, last.others);
      SentKeepsDimension(met, before, last.position, last.dimension, radius, last.sent);
      UpdateAtColumn(before, met, last.position, last.dimension, radius, last.sent, c);
      if held.dimension == before.dimension {
        RightAboutExactly(start, client, updates[..n], c, radius);
      }
    }
  }

  /** After any run, whatever reached the client from elsewhere, it has exactly the window around
      the stored centre if and only if it is in the stored dimension and the other packets agree
      with the stream about every column. */
  lemma InStepExactly(start: Cursor, client: Client, updates: seq<Update>, radius: nat)
    requires InStep(start, client, radius) && Streamed(start, updates, radius)
    ensures InStep(CursorAfter(start, updates), ClientAfter(client, updates), radius) <==>
              && ClientDimension(client.dimension, updates) == CursorAfter(start, updates).dimension
              && forall c :: Agrees(start, client.dimension, updates, c, radius)
  {
    ClientDimensionIs(start, client, updates, radius);
    var cursor, held := CursorAfter(start, updates), ClientAfter(client, updates);
    if held.dimension == cursor.dimension {
      forall c: Column
        ensures RightAbout(cursor, held, c, radius) <==> Agrees(start, client.dimension, updates, c, radius)
      {
        RightAboutExactly(start, client, updates, c, radius);
      }
      if InStep(cursor, held, radius) {
        forall c: Column ensures Agrees(start, client.dimension, updates, c, radius) {
          assert RightAbout(cursor, held, c, radius);
        }
      } else {
        var c: Column :| !RightAbout(cursor, held, c, radius);
        assert !Agrees(start, client.dimension, updates, c, radius);
      }
    }
  }

  /** Columns are all that comes from elsewhere, except that a change of dimension reaches the client
      before the update that follows it. */
  ghost predicate OnlyStrays(start: Cursor, updates: seq<Update>) {
    forall i :: 0 <= i < |updates| ==> StraysBefore(CursorAfter(start, updates[..i]), updates[i])
  }

  lemma OnlyStraysFront(start: Cursor, updates: seq<Update>)
    requires updates != [] && OnlyStrays(start, updates)
    ensures var n := |updates| - 1;
            OnlyStrays(start, updates[..n]) && StraysBefore(CursorAfter(start, updates[..n]), updates[n])
  {
    var n := |updates| - 1;
    assert forall i :: 0 <= i < n ==> updates[..n][..i] == updates[..i] && updates[..n][i] == updates[i];
  }

  predicate StraysBefore(before: Cursor, update: Update) {
    if update.dimension == before.dimension then forall packet :: packet in update.others ==> packet.LevelChunk?
    else DimensionAfter(before.dimension, update.others) == update.dimension
  }

  /** Since the cursor last moved every stray column lay in the window. */
  ghost predicate StraysInside(start: Cursor, updates: seq<Update>, radius: nat) {
    updates == [] ||
    var n, last, after := |updates| - 1, updates[|updates| - 1], CursorAfter(start, updates);
    || after != CursorAfter(start, updates[..n])
    || (StraysInside(start, updates[..n], radius) && ColumnsInside(last.others, after, radius))
  }

  predicate ColumnsInside(packets: seq<Packet>, cursor: Cursor, radius: nat) {
    forall packet :: packet in packets && packet.LevelChunk? && packet.dimension == cursor.dimension ==>
      InsideWindow(packet.column, cursor.center, radius)
  }

  lemma {:induction false} ReceiveStrays(client: Client, packets: seq<Packet>)
    requires forall packet :: packet in packets ==> packet.LevelChunk?
    ensures ReceiveAll(client, packets).dimension == client.dimension
    ensures forall c :: c in ReceiveAll(client, packets).columns
                        <==> c in client.columns || LevelChunk(c, client.dimension) in packets
  {
    if packets == [] {
    } else {
      var n := |packets| - 1;
      assert packets == packets[..n] + [packets[n]];
      ReceiveStrays(client, packets[..n]);
    }
  }

  /** Strays leave a client in step with a cursor that stays exactly when they lie in the window. */
  lemma StraysKeepStep(cursor: Cursor, client: Client, packets: seq<Packet>, radius: nat)
    requires HoldsWindow(cursor, client, radius)
    requires forall packet :: packet in packets ==> packet.LevelChunk?
    ensures HoldsWindow(cursor, ReceiveAll(client, packets), radius)
    ensures InStep(cursor, ReceiveAll(client, packets), radius)
            <==> InStep(cursor, client, radius) && ColumnsInside(packets, cursor, radius)
  {
    ReceiveStrays(client, packets);
    var held := ReceiveAll(client, packets);
    if InStep(cursor, held, radius) {
      forall c: Column ensures RightAbout(cursor, client, c, radius) {
        assert RightAbout(cursor, held, c, radius);
      }
      forall packet | packet in packets && packet.LevelChunk? && packet.dimension == cursor.dimension
        ensures InsideWindow(packet.column, cursor.center, radius)
      {
        assert RightAbout(cursor, held, packet.column, radius);
      }
    }
    if InStep(cursor, client, radius) && ColumnsInside(packets, cursor, radius) {
      forall c: Column ensures RightAbout(cursor, held, c, radius) {
        assert RightAbout(cursor, client, c, radius);
      }
    }
  }

  /** One update of such a run, from a client that holds the window. */
  lemma StrayedUpdate(before: Cursor, client: Client, update: Update, radius: nat)
    requires HoldsWindow(before, client, radius) && StraysBefore(before, update)
    requires UpdateSends(before, update.position, update.dimension, radius, update.sent)
    ensures var after := Cursor(CenterOf(update.position), update.dimension);
            var received := ReceiveAll(ReceiveAll(client, update.others), update.sent);
            && HoldsWindow(after, received, radius)
            && (InStep(after, received, radius) <==>
                  after != before || (InStep(before, client, radius) && ColumnsInside(update.others, after, radius)))
            && (InStep(before, client, radius) && update.others == [] ==> NothingResent(client, update.sent))
  {
    var met := ReceiveAll(client, update.others);
    if update.dimension == before.dimension {
      StraysKeepStep(before, client, update.others, radius);
    } else {
      LastWordDecides(client, update.others, (0, 0));
    }
    UpdateRestores(before, met, update.position, update.dimension, radius, update.sent);
    var after := Cursor(CenterOf(update.position), update.dimension);
    if after != before {
      assert forall c: Column :: InsideWindow(c, after.center, radius) ==>
          RightAbout(after, ReceiveAll(met, update.sent), c, radius);
    }
  }

  /** While only columns come from elsewhere, the client has the whole window around the stored
      centre in the stored dimension. It has exactly the window if and only if every column that
      strayed in since the cursor last moved lies in it; then, until more come, it is never sent a
      column it holds. */
  lemma {:induction false} ClientHoldsTheWindow(start: Cursor, client: Client, updates: seq<Update>, radius: nat)
    requires InStep(start, client, radius) && Streamed(start, updates, radius) && OnlyStrays(start, updates)
    ensures HoldsWindow(CursorAfter(start, updates), ClientAfter(client, updates), radius)
    ensures InStep(CursorAfter(start, updates), ClientAfter(client, updates), radius)
            <==> StraysInside(start, updates, radius)
    ensures updates != [] ==>
              var n, last := |updates| - 1, updates[|updates| - 1];
              StraysInside(start, updates[..n], radius) && last.others == [] ==>
                NothingResent(ClientAfter(client, updates[..n]), last.sent)
  {
    if updates == [] {
      assert forall c: Column :: InsideWindow(c, start.center, radius) ==> RightAbout(start, client, c, radius);
    } else {
      var n := |updates| - 1;
      StreamedFront(start, updates, radius);
      OnlyStraysFront(start, updates);
      ClientHoldsTheWindow(start, client, updates[..n], radius);
      var before, held, last := CursorAfter(start, updates[..n]), ClientAfter(client, updates[..n]), updates[n];
      StrayedUpdate(before, held, last, radius);
    }
  }

  /** One column sent from elsewhere beside the window, and a cursor that stays: not in step. */
  lemma StrayBreaksStep(position: Vec3, dimension: int, client: Client, radius: nat)
    requires InStep(Cursor(CenterOf(position), dimension), client, radius)
    ensures var start, center := Cursor(CenterOf(position), dimension), CenterOf(position);
            var beside: Column := (center.0 + radius + 1, center.1);
            var run := [Update([LevelChunk(beside, dimension)], position, dimension, [])];
            && Streamed(start, run, radius) && OnlyStrays(start, run)
            && !InStep(CursorAfter(start, run), ClientAfter(client, run), radius)
  {
    var start, center := Cursor(CenterOf(position), dimension), CenterOf(position);
    var beside: Column := (center.0 + radius + 1, center.1);
    var run := [Update([LevelChunk(beside, dimension)], position, dimension, [])];
    assert run[..0] == [];
    ClientHoldsTheWindow(start, client, run, radius);
    assert LevelChunk(beside, dimension) in run[0].others;
  }

  /** An update that runs ahead of the client's own change of dimension streams to a client that
      forgets it all: the cursor counts the whole square as sent, and the client has nothing. */
  lemma UpdateAheadOfChangeIsLost(start: Cursor, client: Client, position: Vec3, dimension: int, radius: nat,
                                  sent: seq<Packet>)
    requires InStep(start, client, radius) && dimension != start.dimension
    requires UpdateSends(start, position, dimension, radius, sent)
    ensures var run := [Update([], position, dimension, sent),
                        Update([ChangeDimension(dimension)], position, dimension, [])];
            && Streamed(start, run, radius)
            && CursorAfter(start, run) == Cursor(CenterOf(position), dimension)
            && ClientAfter(client, run) == Client(dimension, {})
            && !HoldsWindow(CursorAfter(start, run), ClientAfter(client, run), radius)
  {
    var change := [ChangeDimension(dimension)];
    var run := [Update([], position, dimension, sent), Update(change, position, dimension, [])];
    assert run[..0] == [] && run[..1] == [run[0]] && run[..1][..0] == [] && change[..0] == [];
    assert CursorAfter(start, run[..1]) == Cursor(CenterOf(position), dimension);
    var held := ClientAfter(client, run[..1]);
    assert ReceiveAll(held, change) == Receive(ReceiveAll(held, []), change[0]);
    assert InsideWindow(CenterOf(position), CenterOf(position), radius);
  }

  /** The login stream, published window first and then the whole square, puts an empty client in step. */
  lemma LoginStartsInStep(position: Vec3, dimension: int, radius: nat, columns: seq<Column>)
    requires forall c: Column :: c in columns <==> InsideWindow(c, CenterOf(position), radius)
    ensures InStep(Cursor(CenterOf(position), dimension),
                   ReceiveAll(Client(dimension, {}),
                              [PublisherFor(position, radius)] + LevelChunks(columns, dimension)), radius)
  {
    ReceiveUpdate(Client(dimension, {}), position, radius, columns);
  }

  /** The packets of a change of dimension, once all its columns have arrived, put any client in step
      with a cursor at the same place. */
  lemma ChangeOfDimensionStartsInStep(client: Client, position: Vec3, dimension: int, radius: nat, columns: seq<Column>)
    requires forall c: Column :: c in columns <==> InsideWindow(c, CenterOf(position), radius)
    ensures InStep(Cursor(CenterOf(position), dimension),
                   ReceiveAll(client, [ChangeDimension(dimension)]
                                      + ([PublisherFor(position, radius)] + LevelChunks(columns, dimension))), radius)
  {
    var change := [ChangeDimension(dimension)];
    assert change[..0] == [];
    assert ReceiveAll(client, change) == Receive(ReceiveAll(client, []), change[0]) == Client(dimension, {});
    ReceiveAppends(client, change, [PublisherFor(position, radius)] + LevelChunks(columns, dimension));
    LoginStartsInStep(position, dimension, radius, columns);
  }
}
