/**
 Mirroring a player's status effects (bedrock/status_effect_sync.go). The server
 sends differences only; the client counts durations down by itself, one per sync interval.
 */
module StatusEffects {
  import opened Options

  datatype Effect = Effect(id: string, amplifier: int, duration: int, ambient: bool, particles: bool)

  /** Bedrock's number for an effect; effects that are not in the table have none. */
  type Types = map<string, nat>

  /** Numbers are positive and no two effects share one. */
  predicate ValidTypes(types: Types) {
    && (forall id :: id in types ==> types[id] > 0)
    && (forall a, b :: a in types && b in types && types[a] == types[b] ==> a == b)
  }

  function EffectType(types: Types, id: string): nat {
    if id in types then types[id] else 0
  }

  /** What the player's effect list always satisfies: one entry per effect, time left on each. */
  predicate WellFormed(effects: seq<Effect>) {
    && (forall i, j :: 0 <= i < j < |effects| ==> effects[i].id != effects[j].id)
    && (forall i :: 0 <= i < |effects| ==> effects[i].duration > 0)
  }

  datatype Operation = Quiet | Add | Modify | Remove

  datatype Packet = MobEffect(operation: Operation, effectType: nat, amplifier: int, particles: bool,
                              duration: int, ambient: bool)

  function Lookup(effects: seq<Effect>, id: string): Option<Effect> {
    if effects == [] then None
    else
      var last := effects[|effects| - 1];
      if last.id == id then Some(last) else Lookup(effects[..|effects| - 1], id)
  }

  function OperationFor(before: Option<Effect>, current: Effect): Operation {
    if before.None? then Add
    else if || before.value.amplifier != current.amplifier
            || before.value.ambient != current.ambient
            || before.value.particles != current.particles
            || current.duration > before.value.duration - 1 then Modify
    else Quiet
  }

  function UpsertFor(types: Types, before: Option<Effect>, e: Effect): seq<Packet> {
    var operation := OperationFor(before, e);
    if EffectType(types, e.id) == 0 || operation == Quiet then []
    else [MobEffect(operation, EffectType(types, e.id), e.amplifier, e.particles, e.duration, e.ambient)]
  }

  function Upserts(types: Types, last: seq<Effect>, current: seq<Effect>): seq<Packet> {
    if current == [] then []
    else
      var n := |current| - 1;
      Upserts(types, last, current[..n]) + UpsertFor(types, Lookup(last, current[n].id), current[n])
  }

  function RemovalFor(types: Types, current: seq<Effect>, x: Effect): seq<Packet> {
    if Lookup(current, x.id).Some? || EffectType(types, x.id) == 0 then []
    else [MobEffect(Remove, EffectType(types, x.id), 0, false, 0, false)]
  }

  function Removals(types: Types, last: seq<Effect>, current: seq<Effect>): seq<Packet> {
    if last == [] then []
    else
      var n := |last| - 1;
      Removals(types, last[..n], current) + RemovalFor(types, current, last[n])
  }

  function Changes(types: Types, last: seq<Effect>, current: seq<Effect>): seq<Packet> {
    Upserts(types, last, current) + Removals(types, last, current)
  }

  method IndexById(effects: seq<Effect>) returns (index: map<string, Effect>)
    ensures forall id :: id in index <==> Lookup(effects, id).Some?
    ensures forall id :: id in index ==> Lookup(effects, id) == Some(index[id])
  {
    index := map[];
    for i := 0 to |effects|
      invariant forall id :: id in index <==> Lookup(effects[..i], id).Some?
      invariant forall id :: id in index ==> Lookup(effects[..i], id) == Some(index[id])
    {
      assert effects[..i + 1][..i] == effects[..i];
      index := index[effects[i].id := effects[i]];
    }
    assert effects[..|effects|] == effects;
  }

  method SendUpserts(types: Types, ghost last: seq<Effect>, previous: map<string, Effect>, current: seq<Effect>)
    returns (sent: seq<Packet>, present: set<string>)
    requires forall id :: id in previous <==> Lookup(last, id).Some?
    requires forall id :: id in previous ==> Lookup(last, id) == Some(previous[id])
    ensures sent == Upserts(types, last, current)
    ensures forall id :: id in present <==> Lookup(current, id).Some?
  {
    sent, present := [], {};
    for i := 0 to |current|
      invariant forall id :: id in present <==> Lookup(current[..i], id).Some?
      invariant sent == Upserts(types, last, current[..i])
    {
      assert current[..i + 1][..i] == current[..i];
      var effect := current[i];
      present := present + {effect.id};
      var effectType := EffectType(types, effect.id);
      var before := if effect.id in previous then Some(previous[effect.id]) else None;
      assert before == Lookup(last, effect.id);
      var operation := OperationFor(before, effect);
      if effectType != 0 && operation != Quiet {
        sent := sent + [MobEffect(operation, effectType, effect.amplifier, effect.particles,
                                  effect.duration, effect.ambient)];
      }
    }
    assert current[..|current|] == current;
  }

  method SendRemovals(types: Types, last: seq<Effect>, ghost current: seq<Effect>, present: set<string>,
                      earlier: seq<Packet>)
    returns (sent: seq<Packet>)
    requires forall id :: id in present <==> Lookup(current, id).Some?
    ensures sent == earlier + Removals(types, last, current)
  {
    sent := earlier;
    for i := 0 to |last|
      invariant sent == earlier + Removals(types, last[..i], current)
    {
      assert last[..i + 1][..i] == last[..i];
      var effect := last[i];
      if !(effect.id in present || EffectType(types, effect.id) == 0) {
        sent := sent + [MobEffect(Remove, EffectType(types, effect.id), 0, false, 0, false)];
      }
    }
    assert last[..|last|] == last;
  }

  class Viewer {
    var lastStatusEffects: seq<Effect>

    constructor ()
      ensures lastStatusEffects == []
    {
      lastStatusEffects := [];
    }

    /** Sends what changed since the last sync; does nothing while the player is missing. */
    method SyncLocalStatusEffects(types: Types, player: Option<seq<Effect>>) returns (sent: seq<Packet>)
      modifies this
      ensures player.None? ==> sent == [] && lastStatusEffects == old(lastStatusEffects)
      ensures player.Some? ==>
                && sent == Changes(types, old(lastStatusEffects), player.value)
                && lastStatusEffects == player.value
    {
      sent := [];
      if player.None? {
        return;
      }
      var current := player.value;
      var last := lastStatusEffects;
      var previous := IndexById(last);
      var present;
      sent, present := SendUpserts(types, last, previous, current);
      sent := SendRemovals(types, last, current, present, sent);
      lastStatusEffects := current;
    }
  }

  // ----- the client's copy

  datatype Shown = Shown(amplifier: int, particles: bool, duration: int, ambient: bool)

  /** What the client shows under each effect number. */
  type Mirror = nat -> Option<Shown>

  const BLANK: Mirror := (t: nat) => None

  function Receive(m: Mirror, p: Packet): Mirror {
    match p.operation
    case Add => Replace(m, p.effectType, Some(Shown(p.amplifier, p.particles, p.duration, p.ambient)))
    case Modify => Replace(m, p.effectType, Some(Shown(p.amplifier, p.particles, p.duration, p.ambient)))
    case Remove => Replace(m, p.effectType, None)
    case Quiet => m
  }

  function Replace(m: Mirror, number: nat, shown: Option<Shown>): Mirror {
    (t: nat) => if t == number then shown else m(t)
  }

  function ReceiveAll(m: Mirror, packets: seq<Packet>): Mirror {
    if packets == [] then m
    else Receive(ReceiveAll(m, packets[..|packets| - 1]), packets[|packets| - 1])
  }

  lemma {:induction false} ReceiveAppends(m: Mirror, a: seq<Packet>, b: seq<Packet>)
    ensures ReceiveAll(m, a + b) == ReceiveAll(ReceiveAll(m, a), b)
  {
    if b == [] {
      assert a + b == a;
    } else {
      var n := |b| - 1;
      assert (a + b)[..|a + b| - 1] == a + b[..n];
      ReceiveAppends(m, a, b[..n]);
    }
  }

  /** One sync interval passes: every duration falls by one. A client may or may not drop an
      effect by itself when its time is up. */
  function Tick(m: Mirror, dropsExpired: bool): Mirror {
    (t: nat) => Aged(m(t), dropsExpired)
  }

  function Aged(shown: Option<Shown>, dropsExpired: bool): Option<Shown> {
    match shown
    case None => None
    case Some(x) => if dropsExpired && x.duration <= 1 then None else Some(x.(duration := x.duration - 1))
  }

  function ShownAs(e: Effect): Shown {
    Shown(e.amplifier, e.particles, e.duration, e.ambient)
  }

  /** The effect of a list that has the given Bedrock number. */
  function OfType(types: Types, effects: seq<Effect>, t: nat): Option<Effect> {
    if effects == [] then None
    else
      var last := effects[|effects| - 1];
      if EffectType(types, last.id) == t then Some(last) else OfType(types, effects[..|effects| - 1], t)
  }

  lemma {:induction false} OfTypeIsUnique(types: Types, effects: seq<Effect>, t: nat, i: nat)
    requires ValidTypes(types) && WellFormed(effects) && t > 0 && i < |effects|
    ensures EffectType(types, effects[i].id) == t ==> OfType(types, effects, t) == Some(effects[i])
    ensures OfType(types, effects, t).Some? ==>
              OfType(types, effects, t).value in effects && EffectType(types, OfType(types, effects, t).value.id) == t
  {
    var n := |effects| - 1;
    if i < n {
      OfTypeIsUnique(types, effects[..n], t, i);
    } else if n > 0 {
      OfTypeIsUnique(types, effects[..n], t, n - 1);
    }
  }

  lemma {:induction false} LookupFinds(effects: seq<Effect>, id: string)
    ensures Lookup(effects, id).Some? ==> Lookup(effects, id).value in effects && Lookup(effects, id).value.id == id
    ensures Lookup(effects, id).None? ==> forall e :: e in effects ==> e.id != id
  {
    if effects != [] {
      LookupFinds(effects[..|effects| - 1], id);
      assert effects == effects[..|effects| - 1] + [effects[|effects| - 1]];
    }
  }

  /** An effect of a list is found by its id and by its number. */
  lemma MemberIsFound(types: Types, effects: seq<Effect>, e: Effect)
    requires ValidTypes(types) && WellFormed(effects) && e in effects
    ensures Lookup(effects, e.id) == Some(e)
    ensures EffectType(types, e.id) > 0 ==> OfType(types, effects, EffectType(types, e.id)) == Some(e)
  {
    LookupFinds(effects, e.id);
    var i :| 0 <= i < |effects| && effects[i] == e;
    if EffectType(types, e.id) > 0 { OfTypeIsUnique(types, effects, EffectType(types, e.id), i); }
  }

  lemma OfTypeFinds(types: Types, effects: seq<Effect>, t: nat)
    requires ValidTypes(types) && WellFormed(effects) && t > 0 && OfType(types, effects, t).Some?
    ensures OfType(types, effects, t).value in effects
    ensures EffectType(types, OfType(types, effects, t).value.id) == t
  {
    if effects != [] { OfTypeIsUnique(types, effects, t, 0); }
  }

  lemma ReceiveOneMore(m: Mirror, packets: seq<Packet>, p: Packet)
    ensures ReceiveAll(m, packets + [p]) == Receive(ReceiveAll(m, packets), p)
  {
    assert (packets + [p])[..|packets|] == packets;
  }

  /** A new last effect has a number that no earlier effect has. */
  lemma NumberIsNew(types: Types, effects: seq<Effect>, t: nat)
    requires ValidTypes(types) && WellFormed(effects) && t > 0 && effects != []
    requires EffectType(types, effects[|effects| - 1].id) == t
    ensures OfType(types, effects[..|effects| - 1], t).None?
  {
    var front := effects[..|effects| - 1];
    if OfType(types, front, t).Some? {
      OfTypeFinds(types, front, t);
      assert false;
    }
  }

  predicate SameAt(m: Mirror, after: Mirror, t: nat) {
    m(t) == after(t)
  }

  /** Receiving the packets for one effect touches its number only. */
  lemma UpsertDoes(types: Types, before: Option<Effect>, x: Effect, m: Mirror, earlier: seq<Packet>, t: nat)
    requires t > 0
    ensures var after := ReceiveAll(m, earlier + UpsertFor(types, before, x));
            if EffectType(types, x.id) == t && OperationFor(before, x) != Quiet
            then after(t) == Some(ShownAs(x))
            else SameAt(ReceiveAll(m, earlier), after, t)
  {
    var upsert := UpsertFor(types, before, x);
    if upsert == [] {
      assert earlier + upsert == earlier;
    } else {
      assert upsert == [upsert[0]];
      ReceiveOneMore(m, earlier, upsert[0]);
    }
  }

  /** What became of one number: overwritten, or left alone. */
  predicate UpsertOutcome(last: seq<Effect>, e: Option<Effect>, m: Mirror, after: Mirror, t: nat) {
    if e.Some? && OperationFor(Lookup(last, e.value.id), e.value) != Quiet
    then after(t) == Some(ShownAs(e.value))
    else SameAt(m, after, t)
  }

  /** What the additions and modifications do to one number. */
  lemma {:induction false} UpsertsDo(types: Types, last: seq<Effect>, current: seq<Effect>, m: Mirror, t: nat)
    requires ValidTypes(types) && WellFormed(current) && t > 0
    ensures UpsertOutcome(last, OfType(types, current, t), m, ReceiveAll(m, Upserts(types, last, current)), t)
  {
    if current != [] {
      var n := |current| - 1;
      var x := current[n];
      assert WellFormed(current[..n]);
      UpsertsDo(types, last, current[..n], m, t);
      if EffectType(types, x.id) == t { NumberIsNew(types, current, t); }
      UpsertDoes(types, Lookup(last, x.id), x, m, Upserts(types, last, current[..n]), t);
    }
  }

  lemma RemovalDoes(types: Types, current: seq<Effect>, x: Effect, m: Mirror, earlier: seq<Packet>, t: nat)
    requires t > 0
    ensures var after := ReceiveAll(m, earlier + RemovalFor(types, current, x));
            if EffectType(types, x.id) == t && Lookup(current, x.id).None?
            then after(t) == None
            else SameAt(ReceiveAll(m, earlier), after, t)
  {
    var removal := RemovalFor(types, current, x);
    if removal == [] {
      assert earlier + removal == earlier;
    } else {
      assert removal == [removal[0]];
      ReceiveOneMore(m, earlier, removal[0]);
    }
  }

  /** The effect with this number, if any, is no longer there. */
  predicate Gone(types: Types, last: seq<Effect>, current: seq<Effect>, t: nat) {
    OfType(types, last, t).Some? && Lookup(current, OfType(types, last, t).value.id).None?
  }

  lemma {:induction false} RemovalsDo(types: Types, last: seq<Effect>, current: seq<Effect>, m: Mirror, t: nat)
    requires ValidTypes(types) && WellFormed(last) && t > 0
    ensures var after := ReceiveAll(m, Removals(types, last, current));
            if Gone(types, last, current, t) then after(t) == None else SameAt(m, after, t)
  {
    if last != [] {
      var front, x := last[..|last| - 1], last[|last| - 1];
      assert WellFormed(front);
      RemovalsDo(types, front, current, m, t);
      RemovalDoes(types, current, x, m, Removals(types, front, current), t);
      if EffectType(types, x.id) == t {
        NumberIsNew(types, last, t);
        assert OfType(types, last, t) == Some(x);
      } else {
        assert OfType(types, last, t) == OfType(types, front, t);
      }
    }
  }

  // ----- which packets a sync sends

  lemma {:induction false} UpsertFrom(types: Types, last: seq<Effect>, current: seq<Effect>, p: Packet)
    ensures p in Upserts(types, last, current) <==>
            exists e :: e in current && p in UpsertFor(types, Lookup(last, e.id), e)
  {
    if current != [] {
      var n := |current| - 1;
      UpsertFrom(types, last, current[..n], p);
      assert current == current[..n] + [current[n]];
    }
  }

  lemma {:induction false} RemovalFrom(types: Types, last: seq<Effect>, current: seq<Effect>, p: Packet)
    ensures p in Removals(types, last, current) <==> exists b :: b in last && p in RemovalFor(types, current, b)
  {
    if last != [] {
      var n := |last| - 1;
      RemovalFrom(types, last[..n], current, p);
      assert last == last[..n] + [last[n]];
    }
  }

  /** The list has an effect of this id. */
  predicate Has(effects: seq<Effect>, id: string) {
    exists i :: 0 <= i < |effects| && effects[i].id == id
  }

  /** What is told about an effect the player has: all of it, as an addition when it was not there at
      the last sync, and as a modification when it was there with another strength or flag, or with
      no more time than it has now and a tick. */
  predicate Tells(types: Types, last: seq<Effect>, e: Effect, p: Packet) {
    && p.effectType == EffectType(types, e.id) && p.effectType != 0
    && p.amplifier == e.amplifier && p.particles == e.particles && p.duration == e.duration && p.ambient == e.ambient
    && (p.operation == Add || p.operation == Modify) && (p.operation == Add <==> !Has(last, e.id))
    && forall b :: b in last && b.id == e.id ==>
         || b.amplifier != e.amplifier || b.ambient != e.ambient || b.particles != e.particles
         || b.duration <= e.duration
  }

  /** What is told about an effect the player had. */
  predicate TellsGone(types: Types, current: seq<Effect>, b: Effect, p: Packet) {
    && p.operation == Remove && p.effectType == EffectType(types, b.id) && p.effectType != 0
    && !Has(current, b.id) && p.amplifier == 0 && !p.particles && p.duration == 0 && !p.ambient
  }

  lemma FoundIsThere(effects: seq<Effect>, id: string)
    ensures Lookup(effects, id).Some? <==> Has(effects, id)
  {
    LookupFinds(effects, id);
    if Lookup(effects, id).Some? {
      var i :| 0 <= i < |effects| && effects[i] == Lookup(effects, id).value;
    }
  }

  lemma UpsertTells(types: Types, last: seq<Effect>, e: Effect, p: Packet)
    requires WellFormed(last)
    ensures p in UpsertFor(types, Lookup(last, e.id), e) <==> Tells(types, last, e, p)
  {
    FoundIsThere(last, e.id);
    LookupFinds(last, e.id);
    forall b | b in last && b.id == e.id ensures Lookup(last, e.id) == Some(b) {
      var i :| 0 <= i < |last| && last[i] == b;
      var j :| 0 <= j < |last| && last[j] == Lookup(last, e.id).value;
      assert i == j;
    }
  }

  /** A packet is sent exactly when it tells an effect that is there, or one that is gone. */
  lemma ChangesExactly(types: Types, last: seq<Effect>, current: seq<Effect>, p: Packet)
    requires WellFormed(last)
    ensures p in Changes(types, last, current) <==>
              || (exists e :: e in current && Tells(types, last, e, p))
              || (exists b :: b in last && TellsGone(types, current, b, p))
  {
    UpsertFrom(types, last, current, p);
    RemovalFrom(types, last, current, p);
    forall e | e in current ensures p in UpsertFor(types, Lookup(last, e.id), e) <==> Tells(types, last, e, p) {
      UpsertTells(types, last, e, p);
    }
    forall b | b in last ensures p in RemovalFor(types, current, b) <==> TellsGone(types, current, b, p) {
      FoundIsThere(current, b.id);
    }
  }

  // ----- the client stays right

  /** The mirror shows exactly the supported effects, with their strength and flags, and never
      less time than they have left. */
  ghost predicate InStep(types: Types, effects: seq<Effect>, m: Mirror) {
    m(0) == None && forall t: nat :: t > 0 ==> ShowsRightly(types, effects, m, t)
  }

  predicate ShowsRightly(types: Types, effects: seq<Effect>, m: Mirror, t: nat) {
    match OfType(types, effects, t)
    case None => m(t) == None
    case Some(e) =>
      m(t).Some? && m(t).value.(duration := e.duration) == ShownAs(e) && m(t).value.duration >= e.duration
  }

  /** The time shown is the time left, too. */
  predicate ShowsExactly(types: Types, effects: seq<Effect>, m: Mirror, t: nat) {
    match OfType(types, effects, t)
    case None => m(t) == None
    case Some(e) => m(t) == Some(ShownAs(e))
  }

  /** The effect went on unchanged but lost more than one tick: the server stays silent and
      the client is left with too much time. */
  predicate Shortened(last: seq<Effect>, e: Effect) {
    OperationFor(Lookup(last, e.id), e) == Quiet && e.duration < Lookup(last, e.id).value.duration - 1
  }

  predicate ShortenedAt(types: Types, last: seq<Effect>, current: seq<Effect>, t: nat) {
    OfType(types, current, t).Some? && Shortened(last, OfType(types, current, t).value)
  }

  /** The sync tells the client the whole effect with number t. */
  predicate Renewed(types: Types, last: seq<Effect>, current: seq<Effect>, t: nat) {
    var e := OfType(types, current, t);
    e.Some? && OperationFor(Lookup(last, e.value.id), e.value) != Quiet
  }

  lemma GoneIsGone(types: Types, last: seq<Effect>, current: seq<Effect>, t: nat)
    requires ValidTypes(types) && WellFormed(last) && WellFormed(current) && t > 0
    requires Gone(types, last, current, t)
    ensures OfType(types, current, t).None?
  {
    OfTypeFinds(types, last, t);
    if OfType(types, current, t).Some? {
      OfTypeFinds(types, current, t);
      MemberIsFound(types, current, OfType(types, current, t).value);
    }
  }

  /** Whatever the client shows: a sync rewrites what changed, removes what is gone, and leaves
      every other number alone. */
  lemma SyncDoes(types: Types, last: seq<Effect>, current: seq<Effect>, m: Mirror, t: nat)
    requires ValidTypes(types) && WellFormed(last) && WellFormed(current) && t > 0
    ensures var after := ReceiveAll(m, Changes(types, last, current));
            if Renewed(types, last, current, t) then after(t) == Some(ShownAs(OfType(types, current, t).value))
            else if Gone(types, last, current, t) then after(t) == None && OfType(types, current, t).None?
            else SameAt(m, after, t)
  {
    UpsertsDo(types, last, current, m, t);
    var upserted := ReceiveAll(m, Upserts(types, last, current));
    RemovalsDo(types, last, current, upserted, t);
    ReceiveAppends(m, Upserts(types, last, current), Removals(types, last, current));
    if Gone(types, last, current, t) { GoneIsGone(types, last, current, t); }
  }

  /** A sync leaves a number right if and only if it renews the effect, removes it, or found it
      right already: nothing else repairs a wrong client. The same holds for the exact time. */
  lemma SyncRepairsExactly(types: Types, last: seq<Effect>, current: seq<Effect>, m: Mirror, t: nat)
    requires ValidTypes(types) && WellFormed(last) && WellFormed(current) && t > 0
    ensures var after := ReceiveAll(m, Changes(types, last, current));
            var repaired := Renewed(types, last, current, t) || Gone(types, last, current, t);
            && (ShowsRightly(types, current, after, t) <==> repaired || ShowsRightly(types, current, m, t))
            && (ShowsExactly(types, current, after, t) <==> repaired || ShowsExactly(types, current, m, t))
  {
    SyncDoes(types, last, current, m, t);
  }

  /** The effects kept by a sync are those of both lists. */
  lemma KeptEffect(types: Types, last: seq<Effect>, current: seq<Effect>, t: nat)
    requires ValidTypes(types) && WellFormed(last) && WellFormed(current) && t > 0
    requires !Renewed(types, last, current, t) && !Gone(types, last, current, t)
    ensures OfType(types, last, t).Some? <==> OfType(types, current, t).Some?
    ensures OfType(types, current, t).Some? ==>
              && Lookup(last, OfType(types, current, t).value.id) == OfType(types, last, t)
              && OperationFor(OfType(types, last, t), OfType(types, current, t).value) == Quiet
  {
    if OfType(types, last, t).Some? {
      var b := OfType(types, last, t).value;
      OfTypeFinds(types, last, t);
      MemberIsFound(types, last, b);
      LookupFinds(current, b.id);
      MemberIsFound(types, current, Lookup(current, b.id).value);
    }
    if OfType(types, current, t).Some? {
      var e := OfType(types, current, t).value;
      OfTypeFinds(types, current, t);
      LookupFinds(last, e.id);
      MemberIsFound(types, last, Lookup(last, e.id).value);
    }
  }

  /** One tick and one sync with no push in between keep a number right, and keep its time exact
      if and only if the effect was not silently shortened. */
  lemma SyncKeepsOne(types: Types, last: seq<Effect>, current: seq<Effect>, m: Mirror, ticked: Mirror, drops: bool, t: nat)
    requires ValidTypes(types) && WellFormed(last) && WellFormed(current)
    requires t > 0 && ShowsRightly(types, last, m, t) && SameAt(Tick(m, drops), ticked, t)
    ensures var after := ReceiveAll(ticked, Changes(types, last, current));
            && ShowsRightly(types, current, after, t)
            && (ShowsExactly(types, last, m, t) ==>
                  (ShowsExactly(types, current, after, t) <==> !ShortenedAt(types, last, current, t)))
  {
    SyncRepairsExactly(types, last, current, ticked, t);
    if !Renewed(types, last, current, t) && !Gone(types, last, current, t) {
      KeptEffect(types, last, current, t);
      if OfType(types, current, t).Some? {
        OfTypeFinds(types, current, t);
        assert OfType(types, current, t).value.duration > 0;
      }
    } else {
      SyncDoes(types, last, current, ticked, t);
    }
  }

  lemma {:induction false} OnlyPositiveUpserts(types: Types, last: seq<Effect>, current: seq<Effect>, m: Mirror)
    requires m(0) == None
    ensures ReceiveAll(m, Upserts(types, last, current))(0) == None
  {
    if current != [] {
      var n := |current| - 1;
      var upsert := UpsertFor(types, Lookup(last, current[n].id), current[n]);
      OnlyPositiveUpserts(types, last, current[..n], m);
      ReceiveAppends(m, Upserts(types, last, current[..n]), upsert);
      if upsert != [] { assert upsert[..0] == []; }
    }
  }

  lemma {:induction false} OnlyPositiveRemovals(types: Types, last: seq<Effect>, current: seq<Effect>, m: Mirror)
    requires m(0) == None
    ensures ReceiveAll(m, Removals(types, last, current))(0) == None
  {
    if last != [] {
      var n := |last| - 1;
      OnlyPositiveRemovals(types, last[..n], current, m);
      var all := Removals(types, last, current);
      var front := Removals(types, last[..n], current);
      if all != front { assert all[..|all| - 1] == front; }
    }
  }

  // ----- packets other server code pushes

  /** What the server sends outside a sync when something adds or takes away an effect; the added
      effect always shows particles and is never ambient. */
  datatype Push = PushAdd(effectType: nat, amplifier: int, duration: int) | PushRemove(effectType: nat)

  function PushPacket(push: Push): Packet {
    match push
    case PushAdd(t, amplifier, duration) => MobEffect(Add, t, amplifier, true, duration, false)
    case PushRemove(t) => MobEffect(Remove, t, 0, false, 0, false)
  }

  function ReceivePushes(m: Mirror, pushes: seq<Push>): Mirror {
    if pushes == [] then m
    else Receive(ReceivePushes(m, pushes[..|pushes| - 1]), PushPacket(pushes[|pushes| - 1]))
  }

  /** Some push concerns number t. */
  predicate Pushed(pushes: seq<Push>, t: nat) {
    exists i :: 0 <= i < |pushes| && pushes[i].effectType == t
  }

  lemma {:induction false} UnpushedStays(m: Mirror, pushes: seq<Push>, t: nat)
    requires !Pushed(pushes, t)
    ensures SameAt(m, ReceivePushes(m, pushes), t)
  {
    if pushes != [] {
      var front := pushes[..|pushes| - 1];
      assert forall i :: 0 <= i < |front| ==> front[i] == pushes[i];
      UnpushedStays(m, front, t);
    }
  }

  /** After a push, what the client showed before does not matter. */
  lemma {:induction false} PushDecides(m: Mirror, n: Mirror, pushes: seq<Push>, t: nat)
    requires Pushed(pushes, t) || SameAt(m, n, t)
    ensures SameAt(ReceivePushes(m, pushes), ReceivePushes(n, pushes), t)
  {
    if pushes != [] {
      var front, last := pushes[..|pushes| - 1], pushes[|pushes| - 1];
      if last.effectType != t && Pushed(pushes, t) {
        var i :| 0 <= i < |pushes| && pushes[i].effectType == t;
        assert front[i].effectType == t;
      }
      if last.effectType != t { PushDecides(m, n, front, t); }
    }
  }

  lemma {:induction false} OnlyPositivePushes(m: Mirror, pushes: seq<Push>)
    requires m(0) == None && PositivePushes(pushes)
    ensures ReceivePushes(m, pushes)(0) == None
  {
    if pushes != [] { OnlyPositivePushes(m, pushes[..|pushes| - 1]); }
  }

  // ----- every run

  /** One sync interval: pushes before and after the client's tick, then the sync, with the effects
      the player has then. While the player is missing nothing is synced, and the client goes on
      counting down. */
  datatype Interval = Interval(early: seq<Push>, late: seq<Push>, player: Option<seq<Effect>>)

  type Run = seq<Interval>

  predicate WellFormedRun(run: Run) {
    forall i :: 0 <= i < |run| ==>
      && (run[i].player.Some? ==> WellFormed(run[i].player.value))
      && PositivePushes(run[i].early) && PositivePushes(run[i].late)
  }

  predicate PositivePushes(pushes: seq<Push>) {
    forall k :: 0 <= k < |pushes| ==> pushes[k].effectType > 0
  }

  function LastSynced(run: Run): seq<Effect> {
    if run == [] then []
    else if run[|run| - 1].player.Some? then run[|run| - 1].player.value
    else LastSynced(run[..|run| - 1])
  }

  /** What the client shows at the end of an interval, right before its sync. */
  function BeforeSync(m: Mirror, interval: Interval, drops: bool): Mirror {
    ReceivePushes(Tick(ReceivePushes(m, interval.early), drops), interval.late)
  }

  function MirrorAfter(types: Types, run: Run, drops: bool): Mirror {
    if run == [] then BLANK
    else
      var front, interval := run[..|run| - 1], run[|run| - 1];
      var before := BeforeSync(MirrorAfter(types, front, drops), interval, drops);
      if interval.player.None? then before
      else ReceiveAll(before, Changes(types, LastSynced(front), interval.player.value))
  }

  lemma {:induction false} LastSyncedWellFormed(run: Run)
    requires WellFormedRun(run)
    ensures WellFormed(LastSynced(run))
  {
    if run != [] && run[|run| - 1].player.None? { LastSyncedWellFormed(run[..|run| - 1]); }
  }

  predicate Concerns(interval: Interval, t: nat) {
    Pushed(interval.early, t) || Pushed(interval.late, t)
  }

  /** The missing intervals at the end of a run, as a client sees them that showed m at the last sync. */
  function SinceSync(m: Mirror, run: Run, drops: bool): Mirror {
    if run == [] || run[|run| - 1].player.Some? then m
    else BeforeSync(SinceSync(m, run[..|run| - 1], drops), run[|run| - 1], drops)
  }

  /** How many missing intervals end the run. */
  function Gap(run: Run): nat {
    if run == [] || run[|run| - 1].player.Some? then 0 else Gap(run[..|run| - 1]) + 1
  }

  predicate PushedInGap(run: Run, t: nat) {
    && run != [] && run[|run| - 1].player.None?
    && (Concerns(run[|run| - 1], t) || PushedInGap(run[..|run| - 1], t))
  }

  /** How much longer than the player has it the client shows effect number t after the last sync:
      nothing extra once a sync renewed it, what a push left over, and otherwise what was extra
      before, plus what the effect lost since the last sync, less one for every tick in between. */
  function Surplus(types: Types, run: Run, drops: bool, t: nat): int {
    if run == [] then 0
    else
      var front, interval := run[..|run| - 1], run[|run| - 1];
      var surplus := Surplus(types, front, drops, t);
      if interval.player.None? then surplus else NewSurplus(types, front, interval, drops, t, surplus)
  }

  function NewSurplus(types: Types, front: Run, interval: Interval, drops: bool, t: nat, surplus: int): int
    requires interval.player.Some?
  {
    if Renewed(types, LastSynced(front), interval.player.value, t) then 0
    else if PushedSince(front, interval, t) then
      Extra(types, interval.player.value, PushesAlone(front, interval, drops), t)
    else KeptSurplus(types, front, interval.player.value, t, surplus)
  }

  function KeptSurplus(types: Types, front: Run, current: seq<Effect>, t: nat, surplus: int): int {
    var b, e := OfType(types, LastSynced(front), t), OfType(types, current, t);
    if b.None? || e.None? then 0
    else surplus + b.value.duration - (Gap(front) + 1) - e.value.duration
  }

  function Extra(types: Types, current: seq<Effect>, m: Mirror, t: nat): int {
    var e := OfType(types, current, t);
    if e.None? || m(t).None? then 0 else m(t).value.duration - e.value.duration
  }

  /** Some push since the last sync concerns number t. */
  predicate PushedSince(front: Run, interval: Interval, t: nat) {
    Concerns(interval, t) || PushedInGap(front, t)
  }

  /** What the pushes since the last sync leave, whatever was shown before them. */
  function PushesAlone(front: Run, interval: Interval, drops: bool): Mirror {
    BeforeSync(SinceSync(BLANK, front, drops), interval, drops)
  }

  /** Shown rightly, or with the exact time, too. */
  predicate Shows(types: Types, effects: seq<Effect>, m: Mirror, t: nat, exact: bool) {
    if exact then ShowsExactly(types, effects, m, t) else ShowsRightly(types, effects, m, t)
  }

  /** The sync of an interval finds or makes number t right: it renews or removes the effect, or the
      pushes since the last sync agree with it, or, without pushes, the client has not counted below
      the time left (or, for the exact time, neither below nor above it). */
  predicate Repaired(types: Types, front: Run, interval: Interval, drops: bool, t: nat, exact: bool)
    requires interval.player.Some?
  {
    var last, current := LastSynced(front), interval.player.value;
    || Renewed(types, last, current, t)
    || Gone(types, last, current, t)
    || (if PushedSince(front, interval, t)
        then Shows(types, current, PushesAlone(front, interval, drops), t, exact)
        else Fits(KeptSurplus(types, front, current, t, Surplus(types, front, drops, t)), exact))
  }

  predicate Fits(surplus: int, exact: bool) {
    if exact then surplus == 0 else surplus >= 0
  }

  predicate AllRepaired(types: Types, run: Run, drops: bool, t: nat, exact: bool) {
    run != [] ==>
      var n := |run| - 1;
      && AllRepaired(types, run[..n], drops, t, exact)
      && (run[n].player.Some? ==> Repaired(types, run[..n], run[n], drops, t, exact))
  }

  /** After every sync of the run, the client shows number t rightly, or exactly. */
  predicate AlwaysShown(types: Types, run: Run, drops: bool, t: nat, exact: bool) {
    run != [] ==>
      var n := |run| - 1;
      && AlwaysShown(types, run[..n], drops, t, exact)
      && (run[n].player.Some? ==>
            Shows(types, run[n].player.value, MirrorAfter(types, run, drops), t, exact))
  }

  /** What the client showed right after the last sync. */
  function AtSync(types: Types, run: Run, drops: bool): Mirror {
    if run == [] || run[|run| - 1].player.Some? then MirrorAfter(types, run, drops)
    else AtSync(types, run[..|run| - 1], drops)
  }

  lemma {:induction false} MirrorSinceSync(types: Types, run: Run, drops: bool)
    ensures MirrorAfter(types, run, drops) == SinceSync(AtSync(types, run, drops), run, drops)
  {
    if run != [] && run[|run| - 1].player.None? { MirrorSinceSync(types, run[..|run| - 1], drops); }
  }

  lemma UnconcernedTicks(m: Mirror, interval: Interval, drops: bool, t: nat)
    requires !Concerns(interval, t)
    ensures SameAt(Tick(m, drops), BeforeSync(m, interval, drops), t)
  {
    UnpushedStays(m, interval.early, t);
    UnpushedStays(Tick(ReceivePushes(m, interval.early), drops), interval.late, t);
  }

  lemma ConcernedForgets(m: Mirror, n: Mirror, interval: Interval, drops: bool, t: nat)
    requires Concerns(interval, t) || SameAt(m, n, t)
    ensures SameAt(BeforeSync(m, interval, drops), BeforeSync(n, interval, drops), t)
  {
    if Pushed(interval.early, t) || SameAt(m, n, t) { PushDecides(m, n, interval.early, t); }
    PushDecides(Tick(ReceivePushes(m, interval.early), drops), Tick(ReceivePushes(n, interval.early), drops),
                interval.late, t);
  }

  lemma {:induction false} GapForgets(m: Mirror, n: Mirror, run: Run, drops: bool, t: nat)
    requires PushedInGap(run, t)
    ensures SameAt(SinceSync(m, run, drops), SinceSync(n, run, drops), t)
  {
    var front, last := run[..|run| - 1], run[|run| - 1];
    if PushedInGap(front, t) { GapForgets(m, n, front, drops, t); }
    ConcernedForgets(SinceSync(m, front, drops), SinceSync(n, front, drops), last, drops, t);
  }

  /** After a push since the last sync, what the client showed before does not matter. */
  lemma PushesDecide(types: Types, front: Run, interval: Interval, drops: bool, t: nat)
    requires PushedSince(front, interval, t)
    ensures SameAt(PushesAlone(front, interval, drops),
                   BeforeSync(MirrorAfter(types, front, drops), interval, drops), t)
  {
    MirrorSinceSync(types, front, drops);
    var m := AtSync(types, front, drops);
    if PushedInGap(front, t) { GapForgets(BLANK, m, front, drops, t); }
    ConcernedForgets(SinceSync(BLANK, front, drops), SinceSync(m, front, drops), interval, drops, t);
  }

  /** What is left of something shown after a number of ticks. */
  function AgedBy(shown: Option<Shown>, ticks: nat, drops: bool): Option<Shown> {
    if shown.None? || (drops && ticks > 0 && shown.value.duration <= ticks) then None
    else Some(shown.value.(duration := shown.value.duration - ticks))
  }

  lemma {:induction false} GapTicks(m: Mirror, run: Run, drops: bool, t: nat)
    requires !PushedInGap(run, t)
    ensures SinceSync(m, run, drops)(t) == AgedBy(m(t), Gap(run), drops)
  {
    if run != [] && run[|run| - 1].player.None? {
      var front, last := run[..|run| - 1], run[|run| - 1];
      GapTicks(m, front, drops, t);
      UnconcernedTicks(SinceSync(m, front, drops), last, drops, t);
    }
  }

  /** Without a push since the last sync, the client just counted down. */
  lemma UnpushedTicks(types: Types, front: Run, interval: Interval, drops: bool, t: nat)
    requires !PushedSince(front, interval, t)
    ensures BeforeSync(MirrorAfter(types, front, drops), interval, drops)(t)
            == AgedBy(AtSync(types, front, drops)(t), Gap(front) + 1, drops)
  {
    MirrorSinceSync(types, front, drops);
    GapTicks(AtSync(types, front, drops), front, drops, t);
    UnconcernedTicks(MirrorAfter(types, front, drops), interval, drops, t);
  }

  /** The client shows an effect number rightly, with a surplus of time. */
  predicate ShowsWith(types: Types, effects: seq<Effect>, m: Mirror, t: nat, surplus: int) {
    match OfType(types, effects, t)
    case None => m(t) == None
    case Some(e) => surplus >= 0 && m(t) == Some(ShownAs(e).(duration := e.duration + surplus))
  }

  predicate ShowsSurplus(types: Types, run: Run, drops: bool, t: nat) {
    ShowsWith(types, LastSynced(run), AtSync(types, run, drops), t, Surplus(types, run, drops, t))
  }

  /** A kept effect, shown with a surplus and counted down, is left with the rest of the surplus. */
  lemma CountedDown(b: Effect, e: Effect, surplus: int, ticks: nat, drops: bool)
    requires OperationFor(Some(b), e) == Quiet && e.duration > 0 && surplus >= 0
    ensures var shown := AgedBy(Some(ShownAs(b).(duration := b.duration + surplus)), ticks, drops);
            var rest := surplus + b.duration - ticks - e.duration;
            if rest >= 0 then shown == Some(ShownAs(e).(duration := e.duration + rest))
            else shown.None? || shown.value.duration < e.duration
  {
  }

  lemma KeptShownExactly(types: Types, last: seq<Effect>, current: seq<Effect>, at: Mirror, m: Mirror, ticks: nat,
                         drops: bool, t: nat, surplus: int)
    requires ValidTypes(types) && WellFormed(last) && WellFormed(current) && t > 0
    requires !Renewed(types, last, current, t) && !Gone(types, last, current, t)
    requires ShowsWith(types, last, at, t, surplus) && m(t) == AgedBy(at(t), ticks, drops)
    ensures var b, e := OfType(types, last, t), OfType(types, current, t);
            if b.None? || e.None? then m(t) == None && e.None?
            else
              var rest := surplus + b.value.duration - ticks - e.value.duration;
              ShowsRest(e.value, m, t, rest)
  {
    KeptEffect(types, last, current, t);
    if OfType(types, current, t).Some? {
      var b, e := OfType(types, last, t).value, OfType(types, current, t).value;
      OfTypeFinds(types, current, t);
      CountedDown(b, e, surplus, ticks, drops);
    }
  }

  predicate ShowsRest(e: Effect, m: Mirror, t: nat, rest: int) {
    if rest >= 0 then m(t) == Some(ShownAs(e).(duration := e.duration + rest))
    else m(t).None? || m(t).value.duration < e.duration
  }

  /** What the client shows right before a sync that stays silent about number t. */
  predicate SilentlyShows(types: Types, front: Run, current: seq<Effect>, m: Mirror, t: nat, surplus: int) {
    var e, rest := OfType(types, current, t), KeptSurplus(types, front, current, t, surplus);
    if e.None? then m(t) == None && rest == 0 else ShowsRest(e.value, m, t, rest)
  }

  lemma KeptSilently(types: Types, front: Run, current: seq<Effect>, at: Mirror, m: Mirror, drops: bool, t: nat,
                     surplus: int)
    requires ValidTypes(types) && WellFormedRun(front) && WellFormed(current) && t > 0
    requires !Renewed(types, LastSynced(front), current, t) && !Gone(types, LastSynced(front), current, t)
    requires ShowsWith(types, LastSynced(front), at, t, surplus) && m(t) == AgedBy(at(t), Gap(front) + 1, drops)
    ensures SilentlyShows(types, front, current, m, t, surplus)
  {
    LastSyncedWellFormed(front);
    KeptShownExactly(types, LastSynced(front), current, at, m, Gap(front) + 1, drops, t, surplus);
  }

  lemma UnpushedSync(types: Types, front: Run, interval: Interval, drops: bool, t: nat)
    requires ValidTypes(types) && WellFormedRun(front) && t > 0 && ShowsSurplus(types, front, drops, t)
    requires interval.player.Some? && WellFormed(interval.player.value) && !PushedSince(front, interval, t)
    requires !Renewed(types, LastSynced(front), interval.player.value, t)
    requires !Gone(types, LastSynced(front), interval.player.value, t)
    ensures SilentlyShows(types, front, interval.player.value,
                          BeforeSync(MirrorAfter(types, front, drops), interval, drops), t,
                          Surplus(types, front, drops, t))
  {
    UnpushedTicks(types, front, interval, drops, t);
    KeptSilently(types, front, interval.player.value, AtSync(types, front, drops),
                 BeforeSync(MirrorAfter(types, front, drops), interval, drops), drops, t, Surplus(types, front, drops, t));
  }

  lemma SilentSync(types: Types, front: Run, interval: Interval, drops: bool, t: nat)
    requires ValidTypes(types) && WellFormedRun(front) && t > 0 && ShowsSurplus(types, front, drops, t)
    requires interval.player.Some? && WellFormed(interval.player.value)
    requires !Renewed(types, LastSynced(front), interval.player.value, t)
    requires !Gone(types, LastSynced(front), interval.player.value, t)
    ensures var m := BeforeSync(MirrorAfter(types, front, drops), interval, drops);
            if PushedSince(front, interval, t) then SameAt(PushesAlone(front, interval, drops), m, t)
            else SilentlyShows(types, front, interval.player.value, m, t, Surplus(types, front, drops, t))
  {
    if PushedSince(front, interval, t) {
      PushesDecide(types, front, interval, drops, t);
    } else {
      UnpushedSync(types, front, interval, drops, t);
    }
  }

  /** What the client shows after a further sync. */
  function Synced(types: Types, front: Run, interval: Interval, drops: bool): Mirror
    requires interval.player.Some?
  {
    ReceiveAll(BeforeSync(MirrorAfter(types, front, drops), interval, drops),
               Changes(types, LastSynced(front), interval.player.value))
  }

  /** What a client shows before a silent sync is right exactly when the sync finds it so. */
  lemma SilentShownExactly(types: Types, front: Run, interval: Interval, m: Mirror, drops: bool, t: nat, exact: bool)
    requires interval.player.Some?
    requires !Renewed(types, LastSynced(front), interval.player.value, t)
    requires !Gone(types, LastSynced(front), interval.player.value, t)
    requires if PushedSince(front, interval, t) then SameAt(PushesAlone(front, interval, drops), m, t)
             else SilentlyShows(types, front, interval.player.value, m, t, Surplus(types, front, drops, t))
    ensures Shows(types, interval.player.value, m, t, exact) <==> Repaired(types, front, interval, drops, t, exact)
  {
  }

  /** A sync leaves number t right exactly when repaired. */
  lemma SyncShownExactly(types: Types, front: Run, interval: Interval, drops: bool, t: nat, exact: bool)
    requires ValidTypes(types) && WellFormedRun(front) && t > 0 && ShowsSurplus(types, front, drops, t)
    requires interval.player.Some? && WellFormed(interval.player.value)
    ensures Shows(types, interval.player.value, Synced(types, front, interval, drops), t, exact)
            <==> Repaired(types, front, interval, drops, t, exact)
  {
    var last, current := LastSynced(front), interval.player.value;
    LastSyncedWellFormed(front);
    var before := BeforeSync(MirrorAfter(types, front, drops), interval, drops);
    SyncRepairsExactly(types, last, current, before, t);
    if !Renewed(types, last, current, t) && !Gone(types, last, current, t) {
      SilentSync(types, front, interval, drops, t);
      SilentShownExactly(types, front, interval, before, drops, t, exact);
    }
  }

  /** A silent sync that is right leaves the new surplus. */
  lemma SilentSurplus(types: Types, front: Run, interval: Interval, m: Mirror, drops: bool, t: nat)
    requires interval.player.Some? && Repaired(types, front, interval, drops, t, false)
    requires !Renewed(types, LastSynced(front), interval.player.value, t)
    requires !Gone(types, LastSynced(front), interval.player.value, t)
    requires if PushedSince(front, interval, t) then SameAt(PushesAlone(front, interval, drops), m, t)
             else SilentlyShows(types, front, interval.player.value, m, t, Surplus(types, front, drops, t))
    ensures ShowsWith(types, interval.player.value, m, t,
                      NewSurplus(types, front, interval, drops, t, Surplus(types, front, drops, t)))
  {
  }

  /** After a repaired sync the surplus is what the client shows beyond the time left. */
  lemma SyncShowsSurplus(types: Types, front: Run, interval: Interval, drops: bool, t: nat)
    requires ValidTypes(types) && WellFormedRun(front) && t > 0 && ShowsSurplus(types, front, drops, t)
    requires interval.player.Some? && WellFormed(interval.player.value)
    requires Repaired(types, front, interval, drops, t, false)
    ensures ShowsWith(types, interval.player.value, Synced(types, front, interval, drops), t,
                      NewSurplus(types, front, interval, drops, t, Surplus(types, front, drops, t)))
  {
    var last, current := LastSynced(front), interval.player.value;
    var before := BeforeSync(MirrorAfter(types, front, drops), interval, drops);
    LastSyncedWellFormed(front);
    SyncDoes(types, last, current, before, t);
    if !Renewed(types, last, current, t) && !Gone(types, last, current, t) {
      SilentSync(types, front, interval, drops, t);
      SilentSurplus(types, front, interval, before, drops, t);
    }
  }

  /** The client shows an effect number rightly (or with the exact time) after every sync of a run if
      and only if every sync renews or removes the effect, or the pushes since the last sync agree
      with it, or without pushes the client has not counted down too far (or too little). */
  lemma {:induction false} AlwaysShownExactly(types: Types, run: Run, drops: bool, t: nat, exact: bool)
    requires ValidTypes(types) && WellFormedRun(run) && t > 0
    ensures AlwaysShown(types, run, drops, t, exact) <==> AllRepaired(types, run, drops, t, exact)
    ensures AllRepaired(types, run, drops, t, exact) ==> ShowsSurplus(types, run, drops, t)
  {
    if run != [] {
      var n := |run| - 1;
      AlwaysShownExactly(types, run[..n], drops, t, exact);
      if AllRepaired(types, run[..n], drops, t, exact) && run[n].player.Some? {
        SyncShownExactly(types, run[..n], run[n], drops, t, exact);
        if Repaired(types, run[..n], run[n], drops, t, exact) {
          if exact { ExactIsRight(types, run[..n], run[n], drops, t); }
          SyncShowsSurplus(types, run[..n], run[n], drops, t);
        }
      }
    }
  }

  lemma ExactIsRight(types: Types, front: Run, interval: Interval, drops: bool, t: nat)
    requires interval.player.Some? && Repaired(types, front, interval, drops, t, true)
    ensures Repaired(types, front, interval, drops, t, false)
  {
  }

  // ----- runs in which the player is never missing

  predicate NeverMissing(run: Run) {
    forall i :: 0 <= i < |run| ==> run[i].player.Some?
  }

  /** An interval with pushes repairs them; without, for the exact time, it does not shorten the
      effect silently. */
  predicate PushRepaired(types: Types, last: seq<Effect>, interval: Interval, drops: bool, t: nat, exact: bool)
    requires interval.player.Some?
  {
    var current := interval.player.value;
    if Concerns(interval, t)
    then || Renewed(types, last, current, t)
         || Gone(types, last, current, t)
         || Shows(types, current, BeforeSync(BLANK, interval, drops), t, exact)
    else exact ==> !ShortenedAt(types, last, current, t)
  }

  predicate PushesRepaired(types: Types, run: Run, drops: bool, t: nat, exact: bool)
    requires NeverMissing(run)
  {
    run != [] ==>
      var n := |run| - 1;
      && PushesRepaired(types, run[..n], drops, t, exact)
      && PushRepaired(types, LastSynced(run[..n]), run[n], drops, t, exact)
  }

  /** While the player is never missing, only pushes spoil what is shown, and besides them only
      silent shortening spoils the exact time. */
  lemma {:induction false} NeverMissingExactly(types: Types, run: Run, drops: bool, t: nat, exact: bool)
    requires ValidTypes(types) && WellFormedRun(run) && t > 0 && NeverMissing(run)
    ensures AlwaysShown(types, run, drops, t, exact) <==> PushesRepaired(types, run, drops, t, exact)
  {
    AlwaysShownExactly(types, run, drops, t, exact);
    SteadyRepaired(types, run, drops, t, exact);
  }

  lemma {:induction false} SteadyRepaired(types: Types, run: Run, drops: bool, t: nat, exact: bool)
    requires ValidTypes(types) && WellFormedRun(run) && t > 0 && NeverMissing(run)
    ensures AllRepaired(types, run, drops, t, exact) <==> PushesRepaired(types, run, drops, t, exact)
    ensures AllRepaired(types, run, drops, t, exact) ==> Fits(Surplus(types, run, drops, t), exact)
  {
    if run != [] {
      var n := |run| - 1;
      SteadyRepaired(types, run[..n], drops, t, exact);
      if AllRepaired(types, run[..n], drops, t, exact) {
        SteadyStep(types, run, drops, t, exact);
      }
    }
  }

  lemma NoGap(front: Run, t: nat, drops: bool)
    requires NeverMissing(front)
    ensures Gap(front) == 0 && !PushedInGap(front, t) && SinceSync(BLANK, front, drops) == BLANK
  {
  }

  /** What a kept effect has left of its surplus after a single tick. */
  lemma SteadyKept(types: Types, front: Run, current: seq<Effect>, drops: bool, t: nat, exact: bool)
    requires ValidTypes(types) && WellFormedRun(front) && WellFormed(current) && t > 0 && NeverMissing(front)
    requires Fits(Surplus(types, front, drops, t), exact)
    requires !Renewed(types, LastSynced(front), current, t) && !Gone(types, LastSynced(front), current, t)
    ensures Fits(KeptSurplus(types, front, current, t, Surplus(types, front, drops, t)), exact)
            <==> exact ==> !ShortenedAt(types, LastSynced(front), current, t)
  {
    NoGap(front, t, drops);
    LastSyncedWellFormed(front);
    KeptEffect(types, LastSynced(front), current, t);
  }

  lemma SteadyStep(types: Types, run: Run, drops: bool, t: nat, exact: bool)
    requires ValidTypes(types) && WellFormedRun(run) && t > 0 && NeverMissing(run) && run != []
    requires Fits(Surplus(types, run[..|run| - 1], drops, t), exact)
    ensures var front, interval := run[..|run| - 1], run[|run| - 1];
            && (Repaired(types, front, interval, drops, t, exact)
                <==> PushRepaired(types, LastSynced(front), interval, drops, t, exact))
            && (Repaired(types, front, interval, drops, t, exact) ==> Fits(Surplus(types, run, drops, t), exact))
  {
    var front, interval := run[..|run| - 1], run[|run| - 1];
    var last, current := LastSynced(front), interval.player.value;
    NoGap(front, t, drops);
    LastSyncedWellFormed(front);
    if Gone(types, last, current, t) {
      GoneIsGone(types, last, current, t);
    } else if !Renewed(types, last, current, t) {
      SteadyKept(types, front, current, drops, t, exact);
    }
  }

  // ----- all effects at once

  /** After every sync of every run whose syncs all repair, the client shows exactly the supported
      effects, rightly, whether or not it drops expired effects by itself. */
  lemma {:induction false} MirrorStaysInStep(types: Types, run: Run, drops: bool)
    requires ValidTypes(types) && WellFormedRun(run)
    requires run != [] && run[|run| - 1].player.Some?
    requires forall t: nat :: t > 0 ==> AllRepaired(types, run, drops, t, false)
    ensures InStep(types, run[|run| - 1].player.value, MirrorAfter(types, run, drops))
  {
    NumbersStayPositive(types, run, drops);
    var current, m := run[|run| - 1].player.value, MirrorAfter(types, run, drops);
    forall t: nat | t > 0 ensures ShowsRightly(types, current, m, t) {
      AlwaysShownExactly(types, run, drops, t, false);
      assert Shows(types, current, m, t, false);
    }
  }

  lemma {:induction false} NumbersStayPositive(types: Types, run: Run, drops: bool)
    requires WellFormedRun(run)
    ensures MirrorAfter(types, run, drops)(0) == None
  {
    if run != [] {
      var n := |run| - 1;
      NumbersStayPositive(types, run[..n], drops);
      var m, i, last := MirrorAfter(types, run[..n], drops), run[n], LastSynced(run[..n]);
      OnlyPositivePushes(m, i.early);
      OnlyPositivePushes(Tick(ReceivePushes(m, i.early), drops), i.late);
      if i.player.Some? {
        OnlyPositiveChanges(types, last, i.player.value, BeforeSync(m, i, drops));
      }
    }
  }

  lemma OnlyPositiveChanges(types: Types, last: seq<Effect>, current: seq<Effect>, m: Mirror)
    requires m(0) == None
    ensures ReceiveAll(m, Changes(types, last, current))(0) == None
  {
    OnlyPositiveUpserts(types, last, current, m);
    OnlyPositiveRemovals(types, last, current, ReceiveAll(m, Upserts(types, last, current)));
    ReceiveAppends(m, Upserts(types, last, current), Removals(types, last, current));
  }

  // ----- pushes that announce an effect

  /** The player's effect list takes an effect over when it is new, stronger, or equally strong and
      longer than the one held. */
  predicate TakenOver(held: Option<Effect>, added: Effect) {
    held.None? || added.amplifier > held.value.amplifier
    || (added.amplifier == held.value.amplifier && added.duration > held.value.duration)
  }

  datatype Event = Added(effect: Effect) | Ticked

  /** The list's entry for one effect after additions and ticks, with no removal. */
  function Entry(held: Option<Effect>, events: seq<Event>): Option<Effect> {
    if events == [] then held
    else
      var entry, last := Entry(held, events[..|events| - 1]), events[|events| - 1];
      match last
      case Added(e) => if TakenOver(entry, e) then Some(e) else entry
      case Ticked => if entry.None? then None else Some(entry.value.(duration := entry.value.duration - 1))
  }

  function Ticks(events: seq<Event>): nat {
    if events == [] then 0 else Ticks(events[..|events| - 1]) + if events[|events| - 1].Ticked? then 1 else 0
  }

  predicate SomeTakenOver(held: Option<Effect>, events: seq<Event>) {
    events != [] &&
    var front, last := events[..|events| - 1], events[|events| - 1];
    SomeTakenOver(held, front) || (last.Added? && TakenOver(Entry(held, front), last.effect))
  }

  /** The first is stronger, or as strong and lasts longer. */
  predicate Outdoes(a: Effect, b: Effect) {
    a.amplifier > b.amplifier || (a.amplifier == b.amplifier && a.duration > b.duration)
  }

  /** Of what was held and added the list keeps the best, the earliest of equals. */
  lemma {:induction false} AdditionsKeepTheBest(held: Option<Effect>, added: seq<Effect>)
    requires held.Some? || added != []
    ensures var x := Entry(held, seq(|added|, i requires 0 <= i < |added| => Added(added[i])));
            && x.Some? && (x == held || x.value in added)
            && (held.Some? ==> !Outdoes(held.value, x.value) && (x == held || Outdoes(x.value, held.value)))
            && forall e :: e in added ==> !Outdoes(e, x.value)
  {
    var events := seq(|added|, i requires 0 <= i < |added| => Added(added[i]));
    if added != [] {
      var n := |added| - 1;
      var front := seq(n, i requires 0 <= i < n => Added(added[..n][i]));
      assert events[..n] == front;
      assert added == added[..n] + [added[n]];
      if held.Some? || n > 0 { AdditionsKeepTheBest(held, added[..n]); }
    }
  }

  lemma {:induction false} TakenOverBeats(held: Option<Effect>, events: seq<Event>)
    ensures var x := Entry(held, events);
            if !SomeTakenOver(held, events)
            then x == if held.None? then None else Some(held.value.(duration := held.value.duration - Ticks(events)))
            else x.Some? && (held.Some? ==>
                   || x.value.amplifier > held.value.amplifier
                   || (x.value.amplifier == held.value.amplifier
                       && x.value.duration > held.value.duration - Ticks(events)))
  {
    if events != [] { TakenOverBeats(held, events[..|events| - 1]); }
  }

  /** When the list took over an addition since the last sync, and the effect was neither removed nor
      ran out in between, the sync renews it: what pushes said about it does not matter. */
  lemma TakenOverIsRepaired(types: Types, front: Run, interval: Interval, events: seq<Event>, id: string, drops: bool,
                            t: nat, exact: bool)
    requires interval.player.Some? && SomeTakenOver(Lookup(LastSynced(front), id), events) && Ticks(events) <= 1
    requires OfType(types, interval.player.value, t) == Entry(Lookup(LastSynced(front), id), events)
    requires OfType(types, interval.player.value, t).Some? ==> OfType(types, interval.player.value, t).value.id == id
    ensures Repaired(types, front, interval, drops, t, exact)
  {
    TakenOverBeats(Lookup(LastSynced(front), id), events);
    assert Renewed(types, LastSynced(front), interval.player.value, t);
  }

  // ----- failing runs

  /** An interval that pushes nothing. */
  function Still(current: seq<Effect>): Interval {
    Interval([], [], Some(current))
  }

  function PushOnly(t: nat, amplifier: int, duration: int, current: seq<Effect>): Interval {
    Interval([], [PushAdd(t, amplifier, duration)], Some(current))
  }

  /** A push without an effect behind it, and n syncs without effects or pushes after it. */
  function Stung(t: nat, amplifier: int, duration: int, n: nat): Run {
    if n == 0 then [PushOnly(t, amplifier, duration, [])]
    else Stung(t, amplifier, duration, n - 1) + [Still([])]
  }

  /** What a client shows for number t after a run at whose last sync the player had no effects. */
  predicate LeftShowing(types: Types, run: Run, drops: bool, t: nat, shown: Shown) {
    LastSynced(run) == [] && MirrorAfter(types, run, drops)(t) == Some(shown)
  }

  lemma StillTicks(types: Types, front: Run, run: Run, drops: bool, t: nat, shown: Shown, left: Shown)
    requires LeftShowing(types, front, drops, t, shown) && (drops ==> shown.duration > 1)
    requires run == front + [Still([])] && left == shown.(duration := shown.duration - 1)
    ensures LeftShowing(types, run, drops, t, left)
  {
    assert run[..|run| - 1] == front;
    assert Changes(types, [], []) == [];
  }

  lemma StungOnce(types: Types, t: nat, amplifier: int, duration: int, drops: bool)
    ensures LeftShowing(types, [PushOnly(t, amplifier, duration, [])], drops, t, Shown(amplifier, true, duration, false))
  {
    var run := [PushOnly(t, amplifier, duration, [])];
    assert run[..0] == [] && run[0].late[..0] == [];
    assert Changes(types, [], []) == [];
  }

  lemma {:induction false} StungShows(types: Types, t: nat, amplifier: int, duration: int, n: nat, drops: bool)
    requires drops ==> n < duration
    ensures LeftShowing(types, Stung(t, amplifier, duration, n), drops, t, Shown(amplifier, true, duration - n, false))
  {
    if n == 0 {
      StungOnce(types, t, amplifier, duration, drops);
    } else {
      StungShows(types, t, amplifier, duration, n - 1, drops);
      StillTicks(types, Stung(t, amplifier, duration, n - 1), Stung(t, amplifier, duration, n), drops, t,
                 Shown(amplifier, true, duration - (n - 1), false), Shown(amplifier, true, duration - n, false));
    }
  }

  /** As after a pufferfish's sting, the client shows an effect the player does not have, and no
      later sync takes it away unless the client drops expired effects by itself. */
  lemma PushWithoutEffectStays(types: Types, t: nat, amplifier: int, duration: int, n: nat, drops: bool)
    requires drops ==> n < duration
    ensures MirrorAfter(types, Stung(t, amplifier, duration, n), drops)(t)
            == Some(Shown(amplifier, true, duration - n, false))
    ensures LastSynced(Stung(t, amplifier, duration, n)) == []
    ensures !AlwaysShown(types, Stung(t, amplifier, duration, n), drops, t, false)
  {
    StungShows(types, t, amplifier, duration, n, drops);
    assert !Shows(types, [], MirrorAfter(types, Stung(t, amplifier, duration, n), drops), t, false);
  }

  /** In a run of two syncs with the same single effect number, the second is right when repaired. */
  lemma TwoSyncs(types: Types, first: Effect, second: Interval, drops: bool, t: nat, exact: bool)
    requires second.player.Some? && Renewed(types, [], [first], t)
    ensures var run := [Still([first]), second];
            AllRepaired(types, run, drops, t, exact) <==> Repaired(types, [Still([first])], second, drops, t, exact)
  {
    var run := [Still([first]), second];
    assert run[..1] == [Still([first])] && [Still([first])][..0] == [];
    assert LastSynced([]) == [];
    assert Repaired(types, [], Still([first]), drops, t, exact);
    assert AllRepaired(types, [Still([first])], drops, t, exact);
  }

  /** The same sting on a player who holds a stronger effect of that kind: the client shows the
      weaker one, and the sync stays silent. */
  lemma WeakerPushStays(drops: bool)
    ensures var types: Types := map["poison" := 19];
            var held := Effect("poison", 1, 600, false, true);
            var run := [Still([held]), PushOnly(19, 0, 60, [held.(duration := 599)])];
            ValidTypes(types) && WellFormedRun(run) && !AlwaysShown(types, run, drops, 19, false)
  {
    var types: Types := map["poison" := 19];
    var held := Effect("poison", 1, 600, false, true);
    var now := held.(duration := 599);
    var second := PushOnly(19, 0, 60, [now]);
    OneEffect(types, held, now, 19);
    TwoSyncs(types, held, second, drops, 19, false);
    AlwaysShownExactly(types, [Still([held]), second], drops, 19, false);
    assert second.late[..0] == [] && second.late[0].effectType == 19;
    assert PushesAlone([Still([held])], second, drops)(19) == Some(Shown(0, true, 60, false));
  }

  /** Two lists of one effect each, the second the same effect with less time. */
  lemma OneEffect(types: Types, first: Effect, second: Effect, t: nat)
    requires first.id in types && types[first.id] == t && t > 0
    requires second == first.(duration := second.duration) && second.duration < first.duration
    ensures OfType(types, [first], t) == Some(first) && OfType(types, [second], t) == Some(second)
    ensures Renewed(types, [], [first], t)
    ensures !Renewed(types, [first], [second], t) && !Gone(types, [first], [second], t)
    ensures LastSynced([Still([first])]) == [first]
  {
    assert Lookup([first], first.id) == Some(first) && Lookup([second], first.id) == Some(second);
    assert Lookup([], first.id) == None;
  }

  /** An effect with hidden particles, cleared and added again shorter between two syncs: the list
      takes it over and pushes it with particles, and the sync stays silent. */
  lemma ReaddedPushStays(drops: bool)
    ensures var types: Types := map["speed" := 1];
            var held := Effect("speed", 0, 600, false, false);
            var again := held.(duration := 99);
            var second := Interval([PushRemove(1), PushAdd(1, 0, 100)], [], Some([again]));
            var run := [Still([held]), second];
            && ValidTypes(types) && WellFormedRun(run) && TakenOver(None, again)
            && !AlwaysShown(types, run, drops, 1, false)
  {
    var types: Types := map["speed" := 1];
    var held := Effect("speed", 0, 600, false, false);
    var again := held.(duration := 99);
    var pushes := [PushRemove(1), PushAdd(1, 0, 100)];
    var second := Interval(pushes, [], Some([again]));
    OneEffect(types, held, again, 1);
    TwoSyncs(types, held, second, drops, 1, false);
    AlwaysShownExactly(types, [Still([held]), second], drops, 1, false);
    assert pushes[..1] == [PushRemove(1)] && pushes[1].effectType == 1;
    assert ReceivePushes(BLANK, pushes)(1) == Some(Shown(0, true, 100, false));
    assert PushesAlone([Still([held])], second, drops)(1) == Some(Shown(0, true, 99, false));
  }

  /** An effect removed and added again shorter between two syncs: the client shows too much time. */
  lemma ShortenedEffectStays(drops: bool)
    ensures var types: Types := map["speed" := 1];
            var long := Effect("speed", 0, 600, false, true);
            var run := [Still([long]), Still([long.(duration := 100)])];
            ValidTypes(types) && WellFormedRun(run) && !AlwaysShown(types, run, drops, 1, true)
  {
    var types: Types := map["speed" := 1];
    var long := Effect("speed", 0, 600, false, true);
    var short := long.(duration := 100);
    OneEffect(types, long, short, 1);
    TwoSyncs(types, long, Still([short]), drops, 1, true);
    AlwaysShownExactly(types, [Still([long]), Still([short])], drops, 1, true);
    assert [Still([long])][..0] == [];
  }

  /** A player who is missing for one sync and comes back with the effects saved before: the client
      counted on, the sync stays silent, and the client shows less time than is left. */
  lemma MissingSyncLosesTime(drops: bool)
    ensures var types: Types := map["speed" := 1];
            var held := Effect("speed", 0, 600, false, true);
            var run := [Still([held]), Interval([], [], None), Still([held.(duration := 599)])];
            ValidTypes(types) && WellFormedRun(run) && !AlwaysShown(types, run, drops, 1, false)
  {
    var types: Types := map["speed" := 1];
    var held := Effect("speed", 0, 600, false, true);
    var now := held.(duration := 599);
    var run := [Still([held]), Interval([], [], None), Still([now])];
    var front := run[..2];
    assert front[..1] == [Still([held])] && [Still([held])][..0] == [];
    OneEffect(types, held, now, 1);
    assert LastSynced([]) == [] && LastSynced(front) == [held];
    assert Surplus(types, [Still([held])], drops, 1) == 0;
    assert Surplus(types, front, drops, 1) == 0 && Gap(front) == 1;
    assert !PushedInGap([Still([held])], 1) && front[..|front| - 1] == [Still([held])];
    assert !Concerns(front[1], 1) && !Concerns(run[2], 1);
    assert !Repaired(types, front, run[2], drops, 1, false);
    AlwaysShownExactly(types, run, drops, 1, false);
  }

  /** When every effect just ran on for one tick, nothing is sent. */
  lemma {:induction false} NaturalTickIsSilent(types: Types, last: seq<Effect>, current: seq<Effect>)
    requires WellFormed(last) && |current| == |last|
    requires forall i :: 0 <= i < |last| ==> current[i] == last[i].(duration := last[i].duration - 1)
    ensures Changes(types, last, current) == []
  {
    forall e | e in current ensures RanOn(last, e) {
      var i :| 0 <= i < |current| && current[i] == e;
      assert last[i] in last;
    }
    QuietUpserts(types, last, current);
    QuietRemovals(types, last, current, last);
  }

  /** The effect was there before, with one tick more. */
  predicate RanOn(last: seq<Effect>, e: Effect) {
    exists b :: b in last && e == b.(duration := b.duration - 1)
  }

  lemma QuietUpsert(types: Types, last: seq<Effect>, e: Effect)
    requires WellFormed(last) && RanOn(last, e)
    ensures UpsertFor(types, Lookup(last, e.id), e) == []
  {
    var b :| b in last && e == b.(duration := b.duration - 1);
    LookupFinds(last, e.id);
    var i :| 0 <= i < |last| && last[i] == b;
    var j :| 0 <= j < |last| && last[j] == Lookup(last, e.id).value;
    assert i == j;
  }

  lemma {:induction false} QuietUpserts(types: Types, last: seq<Effect>, current: seq<Effect>)
    requires WellFormed(last) && forall e :: e in current ==> RanOn(last, e)
    ensures Upserts(types, last, current) == []
  {
    if current != [] {
      var n := |current| - 1;
      assert forall e :: e in current[..n] ==> e in current;
      QuietUpserts(types, last, current[..n]);
      QuietUpsert(types, last, current[n]);
    }
  }

  lemma {:induction false} QuietRemovals(types: Types, last: seq<Effect>, current: seq<Effect>, all: seq<Effect>)
    requires |last| <= |current| && |all| == |current| && last <= all
    requires forall i :: 0 <= i < |all| ==> current[i].id == all[i].id
    ensures Removals(types, last, current) == []
  {
    if last != [] {
      var n := |last| - 1;
      QuietRemovals(types, last[..n], current, all);
      LookupFinds(current, last[n].id);
      assert current[n] in current;
    }
  }
}
