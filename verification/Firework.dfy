/**
 Firework components as Bedrock NBT (bedrock/firework.go). Colours become the
 nearest of sixteen dyes, so the codec loses detail once and never again.
 */
module Firework {
  import opened Options

  const MAX_EXPLOSIONS := 7
  const MAX_COLORS := 8

  const DYES: seq<int> := [
    0xf0f0f0, 0xf9801d, 0xc74ebd, 0x3ab3da,
    0xfed83d, 0x80c71f, 0xf38baa, 0x474f52,
    0x9d9d97, 0x169c9c, 0x8932b8, 0x3c44aa,
    0x835432, 0x5e7c16, 0xb02e26, 0x1d1d21]

  // ----- the nearest dye

  function Channel(rgb: int, unit: int): int
    requires unit > 0
  {
    (rgb / unit) % 256
  }

  function Square(n: int): nat {
    SquaresAreNatural(n);
    n * n
  }

  lemma SquaresAreNatural(n: int)
    ensures n * n >= 0
    ensures n * n == 0 <==> n == 0
  {
  }

  /** Squared distance of the red, green and blue channels. */
  function Distance(a: int, b: int): nat {
    Square(Channel(a, 0x1_0000) - Channel(b, 0x1_0000))
    + Square(Channel(a, 0x100) - Channel(b, 0x100))
    + Square(Channel(a, 1) - Channel(b, 1))
  }

  /** The dye is at least as near as every other, and nearer than every earlier one. */
  predicate IsNearest(rgb: int, dye: nat) {
    && dye < |DYES|
    && (forall i :: 0 <= i < |DYES| ==> Distance(rgb, DYES[dye]) <= Distance(rgb, DYES[i]))
    && (forall i :: 0 <= i < dye ==> Distance(rgb, DYES[dye]) < Distance(rgb, DYES[i]))
  }

  function NearestAmong(rgb: int, n: nat): (dye: nat)
    requires 1 <= n <= |DYES|
    ensures dye < n
    ensures forall i :: 0 <= i < n ==> Distance(rgb, DYES[dye]) <= Distance(rgb, DYES[i])
    ensures forall i :: 0 <= i < dye ==> Distance(rgb, DYES[dye]) < Distance(rgb, DYES[i])
  {
    if n == 1 then 0
    else
      var best := NearestAmong(rgb, n - 1);
      if Distance(rgb, DYES[n - 1]) < Distance(rgb, DYES[best]) then n - 1 else best
  }

  function NearestDye(rgb: int): (dye: nat)
    ensures IsNearest(rgb, dye)
  {
    NearestAmong(rgb, |DYES|)
  }

  method NearestFireworkDye(rgb: int) returns (best: nat)
    ensures best == NearestDye(rgb)
  {
    best := 0;
    var bestDistance := Distance(rgb, DYES[0]);
    for index := 1 to |DYES|
      invariant best == NearestAmong(rgb, index) && bestDistance == Distance(rgb, DYES[best])
    {
      var distance := Distance(rgb, DYES[index]);
      if distance < bestDistance {
        best, bestDistance := index, distance;
      }
    }
  }

  lemma ZeroDistanceMeansEqual(a: int, b: int)
    requires 0 <= a < 0x100_0000 && 0 <= b < 0x100_0000 && Distance(a, b) == 0
    ensures a == b
  {
    SquaresAreNatural(Channel(a, 0x1_0000) - Channel(b, 0x1_0000));
    SquaresAreNatural(Channel(a, 0x100) - Channel(b, 0x100));
    SquaresAreNatural(Channel(a, 1) - Channel(b, 1));
    ChannelsRebuild(a);
    ChannelsRebuild(b);
  }

  lemma ChannelsRebuild(a: int)
    requires 0 <= a < 0x100_0000
    ensures a == 0x1_0000 * Channel(a, 0x1_0000) + 0x100 * Channel(a, 0x100) + Channel(a, 1)
  {
  }

  lemma DyesDiffer(i: nat, j: nat)
    requires i < |DYES| && j < |DYES| && DYES[i] == DYES[j]
    ensures i == j
  {
  }

  /** A dye is its own nearest dye. */
  lemma DyeIsNearestToItself(i: nat)
    requires i < |DYES|
    ensures NearestDye(DYES[i]) == i
  {
    var j := NearestDye(DYES[i]);
    assert Distance(DYES[i], DYES[i]) == 0;
    assert Distance(DYES[i], DYES[j]) == 0;
    assert forall k :: 0 <= k < |DYES| ==> 0 <= DYES[k] < 0x100_0000;
    ZeroDistanceMeansEqual(DYES[i], DYES[j]);
    DyesDiffer(i, j);
  }

  // ----- fireworks

  type Colors = c: seq<int> | |c| == MAX_COLORS witness [0, 0, 0, 0, 0, 0, 0, 0]

  datatype Explosion = Explosion(shape: nat, colors: Colors, colorCount: nat, fadeColors: Colors, fadeColorCount: nat,
                                 trail: bool, twinkle: bool)

  const NO_COLORS: Colors := [0, 0, 0, 0, 0, 0, 0, 0]
  const NO_EXPLOSION := Explosion(0, NO_COLORS, 0, NO_COLORS, 0, false, false)

  function Unused(n: nat): seq<Explosion> {
    seq(n, i => NO_EXPLOSION)
  }

  type Explosions = e: seq<Explosion> | |e| == MAX_EXPLOSIONS witness Unused(MAX_EXPLOSIONS)

  datatype FireworkData = FireworkData(flight: nat, explosionCount: nat, explosions: Explosions)

  function Min(a: int, b: int): int {
    if a < b then a else b
  }

  function EffectiveExplosion(e: Explosion): Explosion {
    Explosion(if e.shape > 4 then 0 else e.shape, e.colors, Min(e.colorCount, MAX_COLORS),
              e.fadeColors, Min(e.fadeColorCount, MAX_COLORS), e.trail, e.twinkle)
  }

  /** Counts within the arrays and known shapes; an unknown shape becomes the first one. */
  function Effective(f: FireworkData): FireworkData {
    FireworkData(f.flight, Min(f.explosionCount, MAX_EXPLOSIONS),
                 EffectiveExplosions(f.explosions, Min(f.explosionCount, MAX_EXPLOSIONS)))
  }

  function EffectiveExplosions(explosions: Explosions, count: nat): Explosions {
    seq(MAX_EXPLOSIONS, i requires 0 <= i < MAX_EXPLOSIONS =>
      if i < count then EffectiveExplosion(explosions[i]) else explosions[i])
  }

  // ----- NBT

  datatype Tag = Fireworks | Flight | ExplosionList | FireworkType | FireworkColor | FireworkFade
               | FireworkFlicker | FireworkTrail | OtherTag(name: string)

  /** NBT values: unsigned and signed numbers, lists, byte arrays, compounds; `Missing` also
      stands for values of any other type. */
  datatype Nbt =
    | Byte(value: nat)
    | Number(number: int)
    | List(items: seq<Nbt>)
    | Bytes(bytes: seq<nat>)
    | Compound(entries: map<Tag, Nbt>)
    | Missing

  function NbtInt(n: Nbt): int {
    match n
    case Byte(value) => value
    case Number(number) => number
    case _ => 0
  }

  function NbtList(n: Nbt): seq<Nbt> {
    if n.List? then n.items else if n.Bytes? then ByteItems(n.bytes) else []
  }

  function ByteItems(bytes: seq<nat>): seq<Nbt> {
    seq(|bytes|, i requires 0 <= i < |bytes| => Byte(bytes[i]))
  }

  function Get(entries: map<Tag, Nbt>, tag: Tag): Nbt {
    if tag in entries then entries[tag] else Missing
  }

  function Clamp(n: int, low: int, high: int): int {
    if n < low then low else if n > high then high else n
  }

  /** The number from low to high that is nearest to n. */
  predicate NearestIn(n: int, low: int, high: int, r: int) {
    low <= r <= high && (r == n || n < low == r || n > high == r)
  }

  /** Exclusive or with 15 of one byte: the low four bits are reversed. */
  function Xor15(b: nat): nat {
    b - b % 16 + (15 - b % 16)
  }

  /** Bitwise exclusive or. */
  function Xor(a: nat, b: nat): nat
    decreases a + b
  {
    if a == 0 && b == 0 then 0 else 2 * Xor(a / 2, b / 2) + if a % 2 != b % 2 then 1 else 0
  }

  lemma {:induction false} XorZero(a: nat)
    ensures Xor(a, 0) == a
  {
    if a > 0 { XorZero(a / 2); }
  }

  lemma XorOdd(a: nat, odd: nat)
    requires odd % 2 == 1
    ensures Xor(a, odd) == 2 * Xor(a / 2, odd / 2) + 1 - a % 2
  {
  }

  lemma LowFourBits(b: nat, c: nat, d: nat, e: nat, f: nat)
    requires c == b / 2 && d == c / 2 && e == d / 2 && f == e / 2
    ensures b - b % 16 == 16 * f && b % 16 == 8 * (e % 2) + 4 * (d % 2) + 2 * (c % 2) + b % 2
  {
    var low := 8 * (e % 2) + 4 * (d % 2) + 2 * (c % 2) + b % 2;
    assert b == 16 * f + low;
  }

  /** The arithmetic form is the exclusive or. */
  lemma Xor15IsExclusiveOr(b: nat)
    ensures Xor(b, 15) == Xor15(b)
  {
    var c := b / 2;
    var d := c / 2;
    var e := d / 2;
    var f := e / 2;
    LowFourBits(b, c, d, e, f);
    XorOdd(b, 15);
    XorOdd(c, 7);
    XorOdd(d, 3);
    XorOdd(e, 1);
    XorZero(f);
  }

  // ----- encoding

  function EncodedColours(colors: seq<int>): seq<nat> {
    seq(|colors|, i requires 0 <= i < |colors| => Xor15(NearestDye(colors[i])))
  }

  function EncodedExplosion(e: Explosion): Nbt
    requires e.colorCount <= MAX_COLORS && e.fadeColorCount <= MAX_COLORS
  {
    Compound(map[
      FireworkType := Byte(e.shape),
      FireworkColor := Bytes(EncodedColours(e.colors[..e.colorCount])),
      FireworkFade := Bytes(EncodedColours(e.fadeColors[..e.fadeColorCount])),
      FireworkFlicker := Byte(if e.twinkle then 1 else 0),
      FireworkTrail := Byte(if e.trail then 1 else 0)])
  }

  /** The first n explosions, made effective and encoded. */
  function EncodedExplosions(explosions: Explosions, n: nat): seq<Nbt>
    requires n <= MAX_EXPLOSIONS
  {
    seq(n, i requires 0 <= i < n => EncodedExplosion(EffectiveExplosion(explosions[i])))
  }

  function Encoded(f: FireworkData): map<Tag, Nbt> {
    map[Fireworks := Compound(map[
      Flight := Byte(f.flight),
      ExplosionList := List(EncodedExplosions(f.explosions, Min(f.explosionCount, MAX_EXPLOSIONS)))])]
  }

  /** One byte for each colour used: its nearest dye's number with the low four bits reversed. */
  predicate ColourBytes(colors: Colors, count: nat, sent: Nbt) {
    && sent.Bytes? && |sent.bytes| == Min(count, MAX_COLORS)
    && forall j :: 0 <= j < |sent.bytes| ==> sent.bytes[j] == Xor(NearestDye(colors[j]), 15)
  }

  /** What a client finds under the tags of one explosion. */
  predicate OnTheWire(e: Explosion, sent: Nbt) {
    && sent.Compound?
    && sent.entries.Keys == {FireworkType, FireworkColor, FireworkFade, FireworkFlicker, FireworkTrail}
    && sent.entries[FireworkType] == Byte(if e.shape > 4 then 0 else e.shape)
    && ColourBytes(e.colors, e.colorCount, sent.entries[FireworkColor])
    && ColourBytes(e.fadeColors, e.fadeColorCount, sent.entries[FireworkFade])
    && sent.entries[FireworkFlicker] == Byte(if e.twinkle then 1 else 0)
    && sent.entries[FireworkTrail] == Byte(if e.trail then 1 else 0)
  }

  lemma ColoursOnTheWire(colors: Colors, count: nat)
    ensures ColourBytes(colors, count, Bytes(EncodedColours(colors[..Min(count, MAX_COLORS)])))
  {
    forall j | 0 <= j < Min(count, MAX_COLORS)
      ensures EncodedColours(colors[..Min(count, MAX_COLORS)])[j] == Xor(NearestDye(colors[j]), 15)
    {
      Xor15IsExclusiveOr(NearestDye(colors[j]));
    }
  }

  /** Each explosion in use is sent under the client's own tags. */
  lemma ExplosionsOnTheWire(f: FireworkData, k: nat)
    requires k < f.explosionCount && k < MAX_EXPLOSIONS
    ensures var firework := Encoded(f)[Fireworks];
            && firework.Compound? && Flight in firework.entries && firework.entries[Flight] == Byte(f.flight)
            && ExplosionList in firework.entries && firework.entries[ExplosionList].List?
            && |firework.entries[ExplosionList].items| == Min(f.explosionCount, MAX_EXPLOSIONS)
            && OnTheWire(f.explosions[k], firework.entries[ExplosionList].items[k])
  {
    var e := EffectiveExplosion(f.explosions[k]);
    ColoursOnTheWire(e.colors, e.colorCount);
    ColoursOnTheWire(e.fadeColors, e.fadeColorCount);
  }

  method EncodeColours(colors: Colors, count: nat) returns (out: seq<nat>)
    ensures out == EncodedColours(colors[..Min(count, MAX_COLORS)])
  {
    out := [];
    var index := 0;
    while index < count && index < |colors|
      invariant 0 <= index <= Min(count, MAX_COLORS)
      invariant out == EncodedColours(colors[..index])
    {
      var dye := NearestFireworkDye(colors[index]);
      out := out + [Xor15(dye)];
      index := index + 1;
    }
  }

  method EncodeFirework(f: FireworkData) returns (root: map<Tag, Nbt>)
    ensures root == Encoded(f)
  {
    var data := Effective(f);
    var explosions: seq<Nbt> := [];
    for index := 0 to data.explosionCount
      invariant explosions == EncodedExplosions(f.explosions, index)
    {
      var e := data.explosions[index];
      assert e == EffectiveExplosion(f.explosions[index]);
      var colours := EncodeColours(e.colors, e.colorCount);
      var fades := EncodeColours(e.fadeColors, e.fadeColorCount);
      explosions := explosions + [Compound(map[
        FireworkType := Byte(e.shape),
        FireworkColor := Bytes(colours),
        FireworkFade := Bytes(fades),
        FireworkFlicker := Byte(if e.twinkle then 1 else 0),
        FireworkTrail := Byte(if e.trail then 1 else 0)])];
    }
    root := map[Fireworks := Compound(map[Flight := Byte(data.flight), ExplosionList := List(explosions)])];
  }

  // ----- decoding

  function Uint8(n: int): nat {
    n % 256
  }

  /** The colours a list stands for: entries that name no dye are skipped, at most eight are kept. */
  function ReadColours(list: seq<Nbt>): (colours: seq<int>)
    ensures |colours| <= MAX_COLORS
    ensures forall c :: c in colours ==> c in DYES
  {
    if list == [] then []
    else AddColour(ReadColours(list[..|list| - 1]), Xor15(Uint8(NbtInt(list[|list| - 1]))))
  }

  function AddColour(before: seq<int>, index: nat): seq<int> {
    if |before| >= MAX_COLORS || index >= |DYES| then before else before + [DYES[index]]
  }

  function Black(n: nat): seq<int> {
    seq(n, i => 0)
  }

  function Padded(colours: seq<int>): Colors
    requires |colours| <= MAX_COLORS
  {
    colours + Black(MAX_COLORS - |colours|)
  }

  /** An explosion whose colour arrays hold just these colours. */
  function MakeExplosion(shape: nat, colours: seq<int>, fades: seq<int>, trail: bool, twinkle: bool): Explosion
    requires |colours| <= MAX_COLORS && |fades| <= MAX_COLORS
  {
    Explosion(shape, Padded(colours), |colours|, Padded(fades), |fades|, trail, twinkle)
  }

  function DecodedExplosion(entries: map<Tag, Nbt>): Explosion {
    MakeExplosion(Clamp(NbtInt(Get(entries, FireworkType)), 0, 4),
                  ReadColours(NbtList(Get(entries, FireworkColor))),
                  ReadColours(NbtList(Get(entries, FireworkFade))),
                  NbtInt(Get(entries, FireworkTrail)) != 0, NbtInt(Get(entries, FireworkFlicker)) != 0)
  }

  function ReadExplosions(list: seq<Nbt>): (explosions: seq<Explosion>)
    ensures |explosions| <= MAX_EXPLOSIONS
  {
    if list == [] then [] else AddExplosion(ReadExplosions(list[..|list| - 1]), list[|list| - 1])
  }

  /** Entries that are not compounds are skipped, at most seven are kept. */
  function AddExplosion(before: seq<Explosion>, entry: Nbt): seq<Explosion> {
    if !entry.Compound? || |before| >= MAX_EXPLOSIONS then before else before + [DecodedExplosion(entry.entries)]
  }

  function MakeFirework(flight: nat, explosions: seq<Explosion>): FireworkData
    requires |explosions| <= MAX_EXPLOSIONS
  {
    FireworkData(flight, |explosions|, explosions + Unused(MAX_EXPLOSIONS - |explosions|))
  }

  function Decoded(root: map<Tag, Nbt>): Option<FireworkData> {
    if !Get(root, Fireworks).Compound? then None
    else
      var entries := Get(root, Fireworks).entries;
      Some(MakeFirework(Clamp(NbtInt(Get(entries, Flight)), 0, 255),
                        ReadExplosions(NbtList(Get(entries, ExplosionList)))))
  }

  method DecodeColours(list: seq<Nbt>) returns (colours: Colors, count: nat)
    ensures count == |ReadColours(list)| && colours == Padded(ReadColours(list))
  {
    colours, count := NO_COLORS, 0;
    for k := 0 to |list|
      invariant count == |ReadColours(list[..k])| && colours == Padded(ReadColours(list[..k]))
    {
      assert list[..k + 1][..k] == list[..k];
      if count >= MAX_COLORS {
        FullStaysFull(list, k);
        return;
      }
      var index := Xor15(Uint8(NbtInt(list[k])));
      if index >= |DYES| {
        continue;
      }
      colours := colours[count := DYES[index]];
      count := count + 1;
    }
    assert list[..|list|] == list;
  }

  lemma {:induction false} FullStaysFull(list: seq<Nbt>, k: nat)
    requires k <= |list| && |ReadColours(list[..k])| >= MAX_COLORS
    ensures ReadColours(list) == ReadColours(list[..k])
  {
    if k == |list| {
      assert list[..k] == list;
    } else {
      var front := list[..|list| - 1];
      assert front[..k] == list[..k];
      FullStaysFull(front, k);
    }
  }

  /** The entry names a dye: of its low eight bits only the lower four may be set. */
  predicate NamesDye(entry: Nbt) {
    NbtInt(entry) % 256 < 16
  }

  function DyeNamed(entry: Nbt): int
    requires NamesDye(entry)
  {
    DYES[15 - NbtInt(entry) % 256]
  }

  /** A good entry is at one of the positions, or behind all of a full list of them. */
  predicate CoveredBy(list: seq<Nbt>, good: Nbt -> bool, limit: nat, positions: seq<nat>, i: nat)
    requires i < |list|
  {
    good(list[i]) ==> i in positions || (|positions| == limit && forall k :: 0 <= k < limit ==> positions[k] < i)
  }

  /** The first `limit` of the positions whose entries are good. */
  predicate FirstOf(list: seq<Nbt>, good: Nbt -> bool, limit: nat, positions: seq<nat>) {
    && |positions| <= limit
    && (forall k :: 0 <= k < |positions| ==> positions[k] < |list| && good(list[positions[k]]))
    && (forall j, k :: 0 <= j < k < |positions| ==> positions[j] < positions[k])
    && forall i: nat :: i < |list| ==> CoveredBy(list, good, limit, positions, i)
  }

  lemma FirstOfMore(list: seq<Nbt>, good: Nbt -> bool, limit: nat, positions: seq<nat>, entry: Nbt)
    requires FirstOf(list, good, limit, positions)
    ensures FirstOf(list + [entry], good, limit,
                    if good(entry) && |positions| < limit then positions + [|list|] else positions)
  {
    var all, n := list + [entry], |list|;
    var after := if good(entry) && |positions| < limit then positions + [n] else positions;
    forall i: nat | i <= n ensures CoveredBy(all, good, limit, after, i) {
      if i < n {
        assert CoveredBy(list, good, limit, positions, i);
        if i in positions { InMore(positions, n, i); }
      } else if good(entry) && |positions| < limit {
        InMore(positions, n, n);
      }
    }
  }

  lemma InMore(positions: seq<nat>, last: nat, i: nat)
    requires i in positions || i == last
    ensures i in positions + [last]
  {
    assert (positions + [last])[|positions|] == last;
  }

  /** The colours are those these entries name. */
  predicate ColoursAt(list: seq<Nbt>, positions: seq<nat>, colours: seq<int>) {
    && |positions| == |colours|
    && forall k :: 0 <= k < |colours| ==>
         && positions[k] < |list| && NamesDye(list[positions[k]])
         && colours[k] == DyeNamed(list[positions[k]])
  }

  /** The next entry adds the colour of its dye, if it names one and there is room. */
  predicate ColoursMore(before: seq<int>, entry: Nbt, after: seq<int>) {
    if NamesDye(entry) && |before| < 8 then after == before + [DyeNamed(entry)] else after == before
  }

  lemma ColourAdded(before: seq<int>, entry: Nbt)
    ensures ColoursMore(before, entry, AddColour(before, Xor15(Uint8(NbtInt(entry)))))
  {
    DyeOfByte(NbtInt(entry));
  }

  lemma DyeOfByte(n: int)
    ensures Xor15(Uint8(n)) < 16 <==> n % 256 < 16
    ensures n % 256 < 16 ==> Xor15(Uint8(n)) == 15 - n % 256
  {
  }

  lemma ReadOneMore(list: seq<Nbt>)
    requires list != []
    ensures ColoursMore(ReadColours(list[..|list| - 1]), list[|list| - 1], ReadColours(list))
  {
    ColourAdded(ReadColours(list[..|list| - 1]), list[|list| - 1]);
  }

  lemma ColoursAtMore(list: seq<Nbt>, entry: Nbt, positions: seq<nat>, before: seq<int>, after: seq<int>)
    requires FirstOf(list, NamesDye, 8, positions) && ColoursAt(list, positions, before)
    requires ColoursMore(before, entry, after)
    ensures ColoursAt(list + [entry], if NamesDye(entry) && |positions| < 8 then positions + [|list|] else positions,
                      after)
  {
    var all, kept := list + [entry], if NamesDye(entry) && |positions| < 8 then positions + [|list|] else positions;
    forall k | 0 <= k < |after|
      ensures kept[k] < |all| && NamesDye(all[kept[k]]) && after[k] == DyeNamed(all[kept[k]])
    {
      if k < |before| { assert all[positions[k]] == list[positions[k]] && after[k] == before[k]; }
    }
  }

  /** Decoding keeps the colours of the first eight entries that name a dye. */
  lemma {:induction false} ColoursReadExactly(list: seq<Nbt>) returns (positions: seq<nat>)
    ensures FirstOf(list, NamesDye, 8, positions) && ColoursAt(list, positions, ReadColours(list))
  {
    if list == [] {
      positions := [];
    } else {
      var n := |list| - 1;
      var front, colours := list[..n], ReadColours(list);
      var before := ColoursReadExactly(front);
      ReadOneMore(list);
      positions := ColoursReadStep(front, list[n], before, ReadColours(front), colours);
      assert front + [list[n]] == list;
    }
  }

  lemma ColoursReadStep(list: seq<Nbt>, entry: Nbt, before: seq<nat>, colours: seq<int>, after: seq<int>)
    returns (positions: seq<nat>)
    requires FirstOf(list, NamesDye, 8, before) && ColoursAt(list, before, colours)
    requires ColoursMore(colours, entry, after)
    ensures FirstOf(list + [entry], NamesDye, 8, positions) && ColoursAt(list + [entry], positions, after)
  {
    FirstOfMore(list, NamesDye, 8, before, entry);
    ColoursAtMore(list, entry, before, colours, after);
    positions := if NamesDye(entry) && |before| < 8 then before + [|list|] else before;
  }

  predicate ExplosionsAt(list: seq<Nbt>, positions: seq<nat>, explosions: seq<Explosion>) {
    && |positions| == |explosions|
    && forall k :: 0 <= k < |explosions| ==>
         && positions[k] < |list| && list[positions[k]].Compound?
         && explosions[k] == DecodedExplosion(list[positions[k]].entries)
  }

  predicate IsCompound(entry: Nbt) {
    entry.Compound?
  }

  /** The next entry adds its explosion, if it is a compound and there is room. */
  predicate ExplosionsMore(before: seq<Explosion>, entry: Nbt, after: seq<Explosion>) {
    if IsCompound(entry) && |before| < 7 then after == before + [DecodedExplosion(entry.entries)] else after == before
  }

  lemma ExplosionsReadStep(list: seq<Nbt>, entry: Nbt, before: seq<nat>, explosions: seq<Explosion>,
                           after: seq<Explosion>)
    returns (positions: seq<nat>)
    requires FirstOf(list, IsCompound, 7, before) && ExplosionsAt(list, before, explosions)
    requires ExplosionsMore(explosions, entry, after)
    ensures FirstOf(list + [entry], IsCompound, 7, positions) && ExplosionsAt(list + [entry], positions, after)
  {
    FirstOfMore(list, IsCompound, 7, before, entry);
    positions := if IsCompound(entry) && |before| < 7 then before + [|list|] else before;
    ExplosionsAtMore(list, entry, before, explosions);
  }

  lemma ExplosionsAtMore(list: seq<Nbt>, entry: Nbt, positions: seq<nat>, before: seq<Explosion>)
    requires ExplosionsAt(list, positions, before)
    ensures ExplosionsAt(list + [entry], positions, before)
    ensures IsCompound(entry) ==>
              ExplosionsAt(list + [entry], positions + [|list|], before + [DecodedExplosion(entry.entries)])
  {
    assert forall k :: 0 <= k < |list| ==> (list + [entry])[k] == list[k];
  }

  lemma ReadOneMoreExplosion(list: seq<Nbt>)
    requires list != []
    ensures ExplosionsMore(ReadExplosions(list[..|list| - 1]), list[|list| - 1], ReadExplosions(list))
  {
  }

  /** Decoding keeps the explosions of the first seven entries that are compounds. */
  lemma {:induction false} ExplosionsReadExactly(list: seq<Nbt>) returns (positions: seq<nat>)
    ensures FirstOf(list, IsCompound, 7, positions) && ExplosionsAt(list, positions, ReadExplosions(list))
  {
    if list == [] {
      positions := [];
    } else {
      var n := |list| - 1;
      var front, explosions := list[..n], ReadExplosions(list);
      var before := ExplosionsReadExactly(front);
      ReadOneMoreExplosion(list);
      positions := ExplosionsReadStep(front, list[n], before, ReadExplosions(front), explosions);
      assert front + [list[n]] == list;
    }
  }

  method DecodeExplosion(entry: map<Tag, Nbt>) returns (e: Explosion)
    ensures e == DecodedExplosion(entry)
    ensures SimpleExplosion(e) && DyedExplosion(e) == e
    ensures NearestIn(NbtInt(Get(entry, FireworkType)), 0, 4, e.shape)
    ensures e.trail <==> NbtInt(Get(entry, FireworkTrail)) != 0
    ensures e.twinkle <==> NbtInt(Get(entry, FireworkFlicker)) != 0
  {
    ReadColoursAreSimple(NbtList(Get(entry, FireworkColor)));
    ReadColoursAreSimple(NbtList(Get(entry, FireworkFade)));
    DyedIsFixedExactly(DecodedExplosion(entry));
    var colours, colorCount := DecodeColours(NbtList(Get(entry, FireworkColor)));
    var fades, fadeCount := DecodeColours(NbtList(Get(entry, FireworkFade)));
    e := Explosion(Clamp(NbtInt(Get(entry, FireworkType)), 0, 4), colours, colorCount, fades, fadeCount,
                   NbtInt(Get(entry, FireworkTrail)) != 0, NbtInt(Get(entry, FireworkFlicker)) != 0);
  }

  method DecodeFirework(root: map<Tag, Nbt>) returns (result: Option<FireworkData>)
    ensures result == Decoded(root)
    ensures result.Some? ==> Simple(result.value) && Decoded(Encoded(result.value)) == result
    ensures result.Some? <==> Get(root, Fireworks).Compound?
    ensures result.Some? ==> NearestIn(NbtInt(Get(Get(root, Fireworks).entries, Flight)), 0, 255, result.value.flight)
  {
    if Decoded(root).Some? { DecodedIsStable(root); }
    if !Get(root, Fireworks).Compound? {
      return None;
    }
    var entries := Get(root, Fireworks).entries;
    var explosions, count := DecodeExplosions(NbtList(Get(entries, ExplosionList)));
    result := Some(FireworkData(Clamp(NbtInt(Get(entries, Flight)), 0, 255), count, explosions));
  }

  /** Skips entries that are no compounds and keeps the first seven explosions. */
  method DecodeExplosions(list: seq<Nbt>) returns (explosions: Explosions, count: nat)
    ensures count == |ReadExplosions(list)|
    ensures explosions == ReadExplosions(list) + Unused(MAX_EXPLOSIONS - count)
  {
    explosions, count := Unused(MAX_EXPLOSIONS), 0;
    for k := 0 to |list|
      invariant count == |ReadExplosions(list[..k])|
      invariant explosions == ReadExplosions(list[..k]) + Unused(MAX_EXPLOSIONS - count)
    {
      assert list[..k + 1][..k] == list[..k];
      if !list[k].Compound? || count >= MAX_EXPLOSIONS {
        continue;
      }
      var explosion := DecodeExplosion(list[k].entries);
      explosions := explosions[count := explosion];
      count := count + 1;
    }
    assert list[..|list|] == list;
  }

  // ----- round trips

  /** Each colour replaced by its nearest dye. */
  function Dyed(colors: seq<int>): seq<int> {
    seq(|colors|, i requires 0 <= i < |colors| => DYES[NearestDye(colors[i])])
  }

  function DyedExplosion(e: Explosion): Explosion {
    MakeExplosion(if e.shape > 4 then 0 else e.shape,
                  Dyed(e.colors[..Min(e.colorCount, MAX_COLORS)]),
                  Dyed(e.fadeColors[..Min(e.fadeColorCount, MAX_COLORS)]), e.trail, e.twinkle)
  }

  /** What survives the codec: known shapes, dye colours, and nothing beyond the counts. */
  function Simplified(f: FireworkData): FireworkData {
    FireworkData(f.flight, Min(f.explosionCount, MAX_EXPLOSIONS),
                 SimplifiedExplosions(f.explosions, Min(f.explosionCount, MAX_EXPLOSIONS)))
  }

  function SimplifiedExplosions(explosions: Explosions, count: nat): Explosions {
    seq(MAX_EXPLOSIONS, i requires 0 <= i < MAX_EXPLOSIONS =>
      if i < count then DyedExplosion(explosions[i]) else NO_EXPLOSION)
  }

  lemma Xor15Inverts(b: nat)
    requires b < 256
    ensures Xor15(b) < 256 && Xor15(Xor15(b)) == b
    ensures b < 16 <==> Xor15(b) < 16
  {
    var q, r := b / 16, b % 16;
    SixteenSplits(q, 15 - r);
    assert Xor15(b) == 16 * q + (15 - r);
  }

  lemma SixteenSplits(q: nat, r: nat)
    requires r < 16
    ensures (16 * q + r) / 16 == q && (16 * q + r) % 16 == r
  {
  }

  lemma OneColourRoundTrip(before: seq<int>, rgb: int)
    requires |before| < MAX_COLORS
    ensures AddColour(before, Xor15(Uint8(NbtInt(Byte(Xor15(NearestDye(rgb))))))) == before + [DYES[NearestDye(rgb)]]
  {
    IndexRoundTrip(NearestDye(rgb));
  }

  lemma IndexRoundTrip(i: nat)
    requires i < 16
    ensures Xor15(Uint8(Xor15(i))) == i
  {
    Xor15Inverts(i);
  }

  /** The items of an encoded colour list. */
  function ColourItems(colors: seq<int>): seq<Nbt> {
    NbtList(Bytes(EncodedColours(colors)))
  }

  lemma ColourItemsStep(colors: seq<int>, n: nat)
    requires |colors| == n + 1
    ensures |ColourItems(colors)| == n + 1
    ensures ColourItems(colors)[..n] == ColourItems(colors[..n])
    ensures ColourItems(colors)[n] == Byte(Xor15(NearestDye(colors[n])))
    ensures Dyed(colors) == Dyed(colors[..n]) + [DYES[NearestDye(colors[n])]]
  {
  }

  lemma {:induction false} ColoursRoundTrip(colors: seq<int>)
    requires |colors| <= MAX_COLORS
    ensures ReadColours(ColourItems(colors)) == Dyed(colors)
  {
    if colors != [] {
      var n := |colors| - 1;
      ColoursRoundTrip(colors[..n]);
      ColourItemsStep(colors, n);
      OneColourRoundTrip(Dyed(colors[..n]), colors[n]);
    }
  }

  lemma EncodedFields(e: Explosion)
    requires e.colorCount <= MAX_COLORS && e.fadeColorCount <= MAX_COLORS
    ensures EncodedExplosion(e).Compound?
    ensures var entries := EncodedExplosion(e).entries;
            && NbtInt(Get(entries, FireworkType)) == e.shape
            && NbtList(Get(entries, FireworkColor)) == ColourItems(e.colors[..e.colorCount])
            && NbtList(Get(entries, FireworkFade)) == ColourItems(e.fadeColors[..e.fadeColorCount])
            && (NbtInt(Get(entries, FireworkTrail)) != 0 <==> e.trail)
            && (NbtInt(Get(entries, FireworkFlicker)) != 0 <==> e.twinkle)
  {
  }

  lemma ExplosionRoundTrip(e: Explosion)
    ensures EncodedExplosion(EffectiveExplosion(e)).Compound?
    ensures DecodedExplosion(EncodedExplosion(EffectiveExplosion(e)).entries) == DyedExplosion(e)
  {
    EncodedFields(EffectiveExplosion(e));
    ColoursRoundTrip(e.colors[..Min(e.colorCount, MAX_COLORS)]);
    ColoursRoundTrip(e.fadeColors[..Min(e.fadeColorCount, MAX_COLORS)]);
  }

  function DyedExplosions(explosions: Explosions, n: nat): seq<Explosion>
    requires n <= MAX_EXPLOSIONS
  {
    SimplifiedExplosions(explosions, n)[..n]
  }

  lemma DyedExplosionsStep(explosions: Explosions, n: nat)
    requires n < MAX_EXPLOSIONS
    ensures DyedExplosions(explosions, n + 1) == DyedExplosions(explosions, n) + [DyedExplosion(explosions[n])]
    ensures EncodedExplosions(explosions, n + 1)[..n] == EncodedExplosions(explosions, n)
  {
  }

  lemma {:induction false} ExplosionsRoundTrip(explosions: Explosions, n: nat)
    requires n <= MAX_EXPLOSIONS
    ensures ReadExplosions(EncodedExplosions(explosions, n)) == DyedExplosions(explosions, n)
  {
    if n > 0 {
      ExplosionsRoundTrip(explosions, n - 1);
      DyedExplosionsStep(explosions, n - 1);
      ExplosionRoundTrip(explosions[n - 1]);
    }
  }

  /** Decoding what was encoded gives the simplified firework. */
  lemma EncodeThenDecode(f: FireworkData)
    requires f.flight <= 255
    ensures Decoded(Encoded(f)) == Some(Simplified(f))
  {
    var n := Min(f.explosionCount, MAX_EXPLOSIONS);
    ExplosionsRoundTrip(f.explosions, n);
    var entries := Encoded(f)[Fireworks].entries;
    assert NbtList(Get(entries, ExplosionList)) == EncodedExplosions(f.explosions, n);
    assert DyedExplosions(f.explosions, n) + Unused(MAX_EXPLOSIONS - n) == Simplified(f).explosions;
  }

  /** The firework holds only what the codec keeps. */
  predicate Simple(f: FireworkData) {
    && f.flight <= 255
    && f.explosionCount <= MAX_EXPLOSIONS
    && (forall i :: 0 <= i < f.explosionCount ==> SimpleExplosion(f.explosions[i]))
    && (forall i :: f.explosionCount <= i < MAX_EXPLOSIONS ==> f.explosions[i] == NO_EXPLOSION)
  }

  predicate SimpleExplosion(e: Explosion) {
    e.shape <= 4 && SimpleColours(e.colors, e.colorCount) && SimpleColours(e.fadeColors, e.fadeColorCount)
  }

  predicate SimpleColours(colors: Colors, count: nat) {
    && count <= MAX_COLORS
    && (forall i :: 0 <= i < count ==> colors[i] in DYES)
    && (forall i :: count <= i < MAX_COLORS ==> colors[i] == 0)
  }

  lemma DyedColoursAreFixed(colors: Colors, count: nat)
    requires count <= MAX_COLORS
    ensures Padded(Dyed(colors[..count])) == colors <==> SimpleColours(colors, count)
  {
    if SimpleColours(colors, count) {
      forall i | 0 <= i < count ensures Dyed(colors[..count])[i] == colors[i] {
        var k :| 0 <= k < |DYES| && DYES[k] == colors[i];
        DyeIsNearestToItself(k);
      }
    }
    if Padded(Dyed(colors[..count])) == colors {
      forall i | 0 <= i < count ensures colors[i] in DYES {
        assert colors[i] == Padded(Dyed(colors[..count]))[i] == DYES[NearestDye(colors[i])];
      }
      forall i | count <= i < MAX_COLORS ensures colors[i] == 0 {
        assert colors[i] == Padded(Dyed(colors[..count]))[i] == 0;
      }
    }
  }

  /** The codec is the identity exactly on simple fireworks. */
  lemma IdentityExactlyOnSimple(f: FireworkData)
    requires f.flight <= 255
    ensures Decoded(Encoded(f)) == Some(f) <==> Simple(f)
  {
    EncodeThenDecode(f);
    if f.explosionCount <= MAX_EXPLOSIONS {
      forall i | 0 <= i < f.explosionCount
        ensures DyedExplosion(f.explosions[i]) == f.explosions[i] <==> SimpleExplosion(f.explosions[i])
      {
        DyedIsFixedExactly(f.explosions[i]);
      }
      if Simplified(f) == f {
        forall i | 0 <= i < MAX_EXPLOSIONS
          ensures f.explosions[i] == if i < f.explosionCount then DyedExplosion(f.explosions[i]) else NO_EXPLOSION
        {
          assert f.explosions[i] == Simplified(f).explosions[i];
        }
      }
      if Simple(f) { assert Simplified(f).explosions == f.explosions; }
    }
  }

  lemma DyedIsFixedExactly(e: Explosion)
    ensures DyedExplosion(e) == e <==> SimpleExplosion(e)
  {
    if e.colorCount <= MAX_COLORS { DyedColoursAreFixed(e.colors, e.colorCount); }
    if e.fadeColorCount <= MAX_COLORS { DyedColoursAreFixed(e.fadeColors, e.fadeColorCount); }
  }

  lemma ReadColoursAreSimple(list: seq<Nbt>)
    ensures SimpleColours(Padded(ReadColours(list)), |ReadColours(list)|)
  {
    var colours := ReadColours(list);
    assert forall i :: 0 <= i < |colours| ==> Padded(colours)[i] == colours[i] && colours[i] in colours;
  }

  lemma {:induction false} ReadExplosionsAreSimple(list: seq<Nbt>)
    ensures forall e :: e in ReadExplosions(list) ==> SimpleExplosion(e)
  {
    if list != [] {
      ReadExplosionsAreSimple(list[..|list| - 1]);
      var last := list[|list| - 1];
      if last.Compound? {
        ReadColoursAreSimple(NbtList(Get(last.entries, FireworkColor)));
        ReadColoursAreSimple(NbtList(Get(last.entries, FireworkFade)));
      }
    }
  }

  /** Whatever a client sends, the decoded firework passes through the codec unchanged. */
  lemma DecodedIsStable(root: map<Tag, Nbt>)
    requires Decoded(root).Some?
    ensures Simple(Decoded(root).value)
    ensures Decoded(Encoded(Decoded(root).value)) == Decoded(root)
  {
    var f := Decoded(root).value;
    var explosions := ReadExplosions(NbtList(Get(Get(root, Fireworks).entries, ExplosionList)));
    ReadExplosionsAreSimple(NbtList(Get(Get(root, Fireworks).entries, ExplosionList)));
    forall i | 0 <= i < f.explosionCount ensures SimpleExplosion(f.explosions[i]) {
      assert f.explosions[i] == explosions[i] && explosions[i] in explosions;
    }
    IdentityExactlyOnSimple(f);
  }

  /** Passing through the codec twice is passing through it once. */
  lemma CodecIsIdempotent(f: FireworkData)
    requires f.flight <= 255
    ensures Simplified(Simplified(f)) == Simplified(f)
  {
    EncodeThenDecode(f);
    DecodedIsStable(Encoded(f));
    EncodeThenDecode(Simplified(f));
  }
}
