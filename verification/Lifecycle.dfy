/**
 Joining and leaving: connection goroutines, the FIFO lifecycle queue and the
 tick goroutine as interleaved steps (bedrock/listener.go, core/intent/intent.go,
 server/server.go). A timeout may strike at any time; the server does not shut down.
 */
module Lifecycle {
  import opened Options

  type Conn = nat
  type Uuid = nat

  /** The connections, the player each one authenticates as, and the queue capacity. */
  datatype Config = Config(uuid: map<Conn, Uuid>, capacity: nat)

  datatype Intent = Join(conn: Conn) | Disconnect(conn: Conn)

  /** Where a connection's goroutine stands.
      - Connecting: the join is not queued yet
      - Waiting: the join is queued, its result is awaited
      - Abandoned: the result did not come in time, the cleanup disconnect is due
      - Joined: accepted; chunks are being sent, not in the roster yet
      - Playing: in the roster
      - Unlisted: removed from the roster, the disconnect is due
      - Closed: the goroutine has returned */
  datatype Phase = Connecting | Waiting | Abandoned | Joined | Playing | Unlisted | Closed

  /** `posted` and `applied` record every intent ever queued and ever handled. */
  datatype State = State(
    phase: map<Conn, Phase>,
    queue: seq<Intent>,
    batch: seq<Intent>,
    online: set<Uuid>,
    roster: map<Uuid, Conn>,
    result: map<Conn, bool>,
    posted: seq<Intent>,
    applied: seq<Intent>)

  function Initial(cfg: Config): State {
    State(map c | c in cfg.uuid :: Connecting, [], [], {}, map[], map[], [], [])
  }

  datatype Step =
    | PostJoin(c: Conn)
    | PostJoinTimesOut(c: Conn)
    | ReceiveResult(c: Conn)
    | ResultTimesOut(c: Conn)
    | PostCleanup(c: Conn)
    | AddSession(c: Conn)
    | RemoveSession(c: Conn)
    | PostClose(c: Conn)
    | Drain
    | Apply(admitted: bool)

  predicate At(s: State, c: Conn, phase: Phase) {
    c in s.phase && s.phase[c] == phase
  }

  function Enter(s: State, c: Conn, phase: Phase): State {
    s.(phase := s.phase[c := phase])
  }

  function Enqueue(s: State, i: Intent): State {
    s.(queue := s.queue + [i], posted := s.posted + [i])
  }

  /** The state after one step, or none when the step is not possible. */
  function Exec(cfg: Config, s: State, step: Step): Option<State> {
    match step
    case PostJoin(c) =>
      if At(s, c, Connecting) && |s.queue| < cfg.capacity
      then Some(Enqueue(Enter(s, c, Waiting), Join(c))) else None
    case PostJoinTimesOut(c) =>
      if At(s, c, Connecting) then Some(Enter(s, c, Closed)) else None
    case ReceiveResult(c) =>
      if At(s, c, Waiting) && c in s.result
      then Some(Enter(s, c, if s.result[c] then Joined else Closed)) else None
    case ResultTimesOut(c) =>
      if At(s, c, Waiting) then Some(Enter(s, c, Abandoned)) else None
    case PostCleanup(c) =>
      if At(s, c, Abandoned) && |s.queue| < cfg.capacity
      then Some(Enqueue(Enter(s, c, Closed), Disconnect(c))) else None
    case AddSession(c) =>
      if At(s, c, Joined) && c in cfg.uuid
      then Some(Enter(s, c, Playing).(roster := s.roster[cfg.uuid[c] := c])) else None
    case RemoveSession(c) =>
      if (At(s, c, Joined) || At(s, c, Playing)) && c in cfg.uuid
      then Some(Enter(s, c, Unlisted).(roster := s.roster - {cfg.uuid[c]})) else None
    case PostClose(c) =>
      if At(s, c, Unlisted) && |s.queue| < cfg.capacity
      then Some(Enqueue(Enter(s, c, Closed), Disconnect(c))) else None
    case Drain =>
      if s.batch == [] then Some(s.(batch := s.queue, queue := [])) else None
    case Apply(admitted) =>
      if s.batch == [] || s.batch[0].conn !in cfg.uuid then None
      else Some(ApplyIntent(cfg, s.(batch := s.batch[1..], applied := s.applied + [s.batch[0]]),
                            s.batch[0], admitted))
  }

  /** A join is accepted when it is admitted and its player is not online; a disconnect
      removes the player, whichever connection brought it. */
  function ApplyIntent(cfg: Config, s: State, i: Intent, admitted: bool): State
    requires i.conn in cfg.uuid
  {
    var u := cfg.uuid[i.conn];
    match i
    case Join(c) =>
      if admitted && u !in s.online
      then s.(online := s.online + {u}, result := s.result[c := true])
      else s.(result := s.result[c := false])
    case Disconnect(c) => s.(online := s.online - {u})
  }

  function Run(cfg: Config, steps: seq<Step>): Option<State> {
    if steps == [] then Some(Initial(cfg))
    else match Run(cfg, steps[..|steps| - 1])
      case None => None
      case Some(s) => Exec(cfg, s, steps[|steps| - 1])
  }

  /** No two connections authenticate as the same player. */
  predicate DistinctPlayers(cfg: Config) {
    forall c, d :: c in cfg.uuid && d in cfg.uuid && c != d ==> cfg.uuid[c] != cfg.uuid[d]
  }

  /** How far a connection's own intents have got in a sequence of intents: none, a join, a
      join and later one disconnect, or anything else. */
  datatype Trail = Silent | JoinedOnly | JoinedThenLeft | Disorder

  function Extend(t: Trail, i: Intent, c: Conn): Trail {
    if i.conn != c then t
    else if t.Silent? && i.Join? then JoinedOnly
    else if t.JoinedOnly? && i.Disconnect? then JoinedThenLeft
    else Disorder
  }

  function TrailOf(intents: seq<Intent>, c: Conn): Trail {
    if intents == [] then Silent
    else Extend(TrailOf(intents[..|intents| - 1], c), intents[|intents| - 1], c)
  }

  function Rank(t: Trail): nat {
    match t case Silent => 0 case JoinedOnly => 1 case JoinedThenLeft => 2 case Disorder => 3
  }

  lemma TrailAppend(intents: seq<Intent>, i: Intent, c: Conn)
    ensures TrailOf(intents + [i], c) == Extend(TrailOf(intents, c), i, c)
  {
    assert (intents + [i])[..|intents|] == intents;
  }

  /** A longer sequence has got at least as far, and no further when it adds nothing of c. */
  lemma {:induction false} TrailGrows(a: seq<Intent>, b: seq<Intent>, c: Conn)
    ensures Rank(TrailOf(a, c)) <= Rank(TrailOf(a + b, c))
    ensures (forall i :: i in b ==> i.conn != c) ==> TrailOf(a + b, c) == TrailOf(a, c)
  {
    if b == [] {
      assert a + b == a;
    } else {
      var n := |b| - 1;
      assert a + b == a + b[..n] + [b[n]];
      TrailGrows(a, b[..n], c);
      TrailAppend(a + b[..n], b[n], c);
      assert forall i :: i in b[..n] ==> i in b;
      assert b[n] in b;
    }
  }

  /** The intents of one connection, in order. */
  function Mine(intents: seq<Intent>, c: Conn): seq<Intent> {
    if intents == [] then []
    else
      Mine(intents[..|intents| - 1], c) +
      if intents[|intents| - 1].conn == c then [intents[|intents| - 1]] else []
  }

  function Classify(mine: seq<Intent>): Trail {
    if |mine| == 0 then Silent
    else if |mine| == 1 && mine[0].Join? then JoinedOnly
    else if |mine| == 2 && mine[0].Join? && mine[1].Disconnect? then JoinedThenLeft
    else Disorder
  }

  lemma {:induction false} TrailClassifiesMine(intents: seq<Intent>, c: Conn)
    ensures TrailOf(intents, c) == Classify(Mine(intents, c))
    ensures forall i :: i in Mine(intents, c) ==> i.conn == c
  {
    if intents != [] {
      TrailClassifiesMine(intents[..|intents| - 1], c);
    }
  }

  lemma TrailMeans(intents: seq<Intent>, c: Conn)
    ensures TrailOf(intents, c).Silent? ==> Mine(intents, c) == []
    ensures TrailOf(intents, c).JoinedOnly? ==> Mine(intents, c) == [Join(c)]
    ensures TrailOf(intents, c).JoinedThenLeft? ==> Mine(intents, c) == [Join(c), Disconnect(c)]
  {
    TrailClassifiesMine(intents, c);
    var mine := Mine(intents, c);
    if |mine| > 0 { assert mine[0] in mine; }
    if |mine| > 1 { assert mine[1] in mine; }
  }

  // ----- the invariant

  /** All that matters about one connection. */
  datatype View = View(phase: Phase, posted: Trail, applied: Trail, result: Option<bool>)

  function ViewOf(cfg: Config, s: State, c: Conn): View
    requires c in cfg.uuid && c in s.phase
  {
    View(s.phase[c], TrailOf(s.posted, c), TrailOf(s.applied, c),
         if c in s.result then Some(s.result[c]) else None)
  }

  /** What a connection has posted fits its phase, and its result fits what has been handled. */
  predicate Fits(v: View) {
    && (match v.phase
        case Connecting => v.posted.Silent?
        case Waiting => v.posted.JoinedOnly?
        case Abandoned => v.posted.JoinedOnly?
        case Joined => v.posted.JoinedOnly? && v.result == Some(true)
        case Playing => v.posted.JoinedOnly? && v.result == Some(true)
        case Unlisted => v.posted.JoinedOnly? && v.result == Some(true)
        case Closed =>
          v.posted.Silent? || (v.posted.JoinedOnly? && v.result == Some(false)) || v.posted.JoinedThenLeft?)
    && (match v.applied
        case Silent => v.result == None
        case JoinedOnly => v.result.Some?
        case JoinedThenLeft => v.result.Some?
        case Disorder => false)
  }

  predicate AllFit(cfg: Config, s: State)
    requires s.phase.Keys == cfg.uuid.Keys
  {
    forall c :: c in cfg.uuid ==> Fits(ViewOf(cfg, s, c))
  }

  predicate Books(cfg: Config, s: State) {
    && s.posted == s.applied + s.batch + s.queue
    && forall i :: i in s.posted ==> i.conn in cfg.uuid
  }

  /** The connection's join was accepted and its disconnect has not been handled. */
  predicate Present(s: State, c: Conn) {
    c in s.result && s.result[c] && TrailOf(s.applied, c).JoinedOnly?
  }

  /** Every online player has a present connection. */
  ghost predicate Witnessed(cfg: Config, s: State) {
    forall u :: u in s.online ==> exists c :: c in cfg.uuid && cfg.uuid[c] == u && Present(s, c)
  }

  /** Holds in every run, whoever the connections are. */
  ghost predicate Orderly(cfg: Config, s: State) {
    s.phase.Keys == cfg.uuid.Keys && Books(cfg, s) && AllFit(cfg, s) && Witnessed(cfg, s)
  }

  /** Every present connection's player is online. */
  predicate PresentOnline(cfg: Config, s: State) {
    forall c :: c in cfg.uuid && Present(s, c) ==> cfg.uuid[c] in s.online
  }

  /** The roster lists exactly the playing connections, each under its own player. */
  predicate RosterFits(cfg: Config, s: State) {
    && (forall u :: u in s.roster ==>
          s.roster[u] in cfg.uuid && cfg.uuid[s.roster[u]] == u && At(s, s.roster[u], Playing))
    && (forall c :: At(s, c, Playing) && c in cfg.uuid ==>
          cfg.uuid[c] in s.roster && s.roster[cfg.uuid[c]] == c)
  }

  /** Holds in every run of distinct players. */
  ghost predicate Invariant(cfg: Config, s: State) {
    Orderly(cfg, s) && PresentOnline(cfg, s) && RosterFits(cfg, s)
  }

  /** A step that changes the view of one connection only. */
  lemma OneChanges(cfg: Config, s: State, t: State, c: Conn)
    requires s.phase.Keys == cfg.uuid.Keys && t.phase.Keys == cfg.uuid.Keys && c in cfg.uuid
    requires AllFit(cfg, s) && Fits(ViewOf(cfg, t, c))
    requires forall d :: d in cfg.uuid && d != c ==> ViewOf(cfg, t, d) == ViewOf(cfg, s, d)
    ensures AllFit(cfg, t)
  {
    forall d | d in cfg.uuid ensures Fits(ViewOf(cfg, t, d)) {
      assert Fits(ViewOf(cfg, s, d));
    }
  }

  /** Presence only depends on what has been handled. */
  lemma PresenceUnmoved(cfg: Config, s: State, t: State)
    requires t.online == s.online && t.result == s.result && t.applied == s.applied
    ensures Witnessed(cfg, s) ==> Witnessed(cfg, t)
    ensures PresentOnline(cfg, s) ==> PresentOnline(cfg, t)
  {
    assert forall c :: Present(t, c) <==> Present(s, c);
  }

  lemma RosterUnmoved(cfg: Config, s: State, t: State)
    requires RosterFits(cfg, s) && t.roster == s.roster
    requires forall d :: At(t, d, Playing) <==> At(s, d, Playing)
    ensures RosterFits(cfg, t)
  {
  }

  lemma EnqueueBooks(cfg: Config, s: State, i: Intent)
    requires Books(cfg, s) && i.conn in cfg.uuid
    ensures Books(cfg, Enqueue(s, i))
  {
    var t := Enqueue(s, i);
    assert t.posted == t.applied + t.batch + t.queue;
  }

  lemma EnqueueViews(cfg: Config, s: State, c: Conn, phase: Phase, i: Intent)
    requires s.phase.Keys == cfg.uuid.Keys && c in cfg.uuid && i.conn == c
    ensures var t := Enqueue(Enter(s, c, phase), i);
            && ViewOf(cfg, t, c) == ViewOf(cfg, s, c).(phase := phase, posted := Extend(TrailOf(s.posted, c), i, c))
            && forall d :: d in cfg.uuid && d != c ==> ViewOf(cfg, t, d) == ViewOf(cfg, s, d)
  {
    var t := Enqueue(Enter(s, c, phase), i);
    TrailAppend(s.posted, i, c);
    forall d | d in cfg.uuid && d != c ensures ViewOf(cfg, t, d) == ViewOf(cfg, s, d) {
      TrailAppend(s.posted, i, d);
    }
  }

  lemma EnqueueKeeps(cfg: Config, s: State, c: Conn, phase: Phase, i: Intent)
    requires Orderly(cfg, s) && c in cfg.uuid && i.conn == c
    requires Fits(ViewOf(cfg, s, c).(phase := phase, posted := Extend(TrailOf(s.posted, c), i, c)))
    ensures Orderly(cfg, Enqueue(Enter(s, c, phase), i))
  {
    EnqueueBooks(cfg, Enter(s, c, phase), i);
    EnqueueFits(cfg, s, c, phase, i);
    PresenceUnmoved(cfg, s, Enqueue(Enter(s, c, phase), i));
  }

  lemma EnqueueFits(cfg: Config, s: State, c: Conn, phase: Phase, i: Intent)
    requires s.phase.Keys == cfg.uuid.Keys && AllFit(cfg, s) && c in cfg.uuid && i.conn == c
    requires Fits(ViewOf(cfg, s, c).(phase := phase, posted := Extend(TrailOf(s.posted, c), i, c)))
    ensures Enqueue(Enter(s, c, phase), i).phase.Keys == cfg.uuid.Keys && AllFit(cfg, Enqueue(Enter(s, c, phase), i))
  {
    EnqueueViews(cfg, s, c, phase, i);
    OneChanges(cfg, s, Enqueue(Enter(s, c, phase), i), c);
  }

  lemma EnterFits(cfg: Config, s: State, c: Conn, phase: Phase, roster: map<Uuid, Conn>)
    requires s.phase.Keys == cfg.uuid.Keys && AllFit(cfg, s) && c in cfg.uuid
    requires Fits(ViewOf(cfg, s, c).(phase := phase))
    ensures var t := Enter(s, c, phase).(roster := roster); t.phase.Keys == cfg.uuid.Keys && AllFit(cfg, t)
  {
    OneChanges(cfg, s, Enter(s, c, phase).(roster := roster), c);
  }

  lemma EnterKeeps(cfg: Config, s: State, c: Conn, phase: Phase, roster: map<Uuid, Conn>)
    requires Orderly(cfg, s) && c in cfg.uuid
    requires Fits(ViewOf(cfg, s, c).(phase := phase))
    ensures Orderly(cfg, Enter(s, c, phase).(roster := roster))
  {
    EnterFits(cfg, s, c, phase, roster);
    PresenceUnmoved(cfg, s, Enter(s, c, phase).(roster := roster));
  }

  /** The next intent to be handled continues its connection's trail in good order. */
  lemma NextInOrder(cfg: Config, s: State)
    requires Orderly(cfg, s) && s.batch != [] && s.batch[0].conn in cfg.uuid
    ensures var i := s.batch[0];
            var v := ViewOf(cfg, s, i.conn);
            && (i.Join? ==> v.applied.Silent?)
            && (i.Disconnect? ==> v.applied.JoinedOnly?)
            && Rank(Extend(v.applied, i, i.conn)) <= Rank(v.posted)
  {
    var i := s.batch[0];
    var c := i.conn;
    var rest := s.batch[1..] + s.queue;
    assert s.posted == s.applied + [i] + rest by {
      assert s.batch == [i] + s.batch[1..];
    }
    TrailGrows(s.applied + [i], rest, c);
    TrailAppend(s.applied, i, c);
    assert Fits(ViewOf(cfg, s, c));
  }

  /** What handling an intent changes. */
  lemma ApplyWrites(cfg: Config, s: State, admitted: bool)
    requires Exec(cfg, s, Apply(admitted)).Some?
    ensures var t, i := Exec(cfg, s, Apply(admitted)).value, s.batch[0];
            var accepted := admitted && cfg.uuid[i.conn] !in s.online;
            && t.applied == s.applied + [i] && t.posted == s.posted && t.phase == s.phase && t.roster == s.roster
            && t.result == (if i.Join? then s.result[i.conn := accepted] else s.result)
            && t.online == (if i.Disconnect? then s.online - {cfg.uuid[i.conn]}
                            else if accepted then s.online + {cfg.uuid[i.conn]} else s.online)
  {
  }

  lemma ApplyOthers(cfg: Config, s: State, t: State, i: Intent, accepted: bool, d: Conn)
    requires s.phase.Keys == cfg.uuid.Keys && d in cfg.uuid && d != i.conn
    requires t.applied == s.applied + [i] && t.posted == s.posted && t.phase == s.phase
    requires t.result == if i.Join? then s.result[i.conn := accepted] else s.result
    ensures ViewOf(cfg, t, d) == ViewOf(cfg, s, d)
  {
    TrailAppend(s.applied, i, d);
  }

  lemma ApplyOwn(cfg: Config, s: State, t: State, i: Intent, accepted: bool)
    requires s.phase.Keys == cfg.uuid.Keys && i.conn in cfg.uuid && Fits(ViewOf(cfg, s, i.conn))
    requires t.applied == s.applied + [i] && t.posted == s.posted && t.phase == s.phase
    requires t.result == if i.Join? then s.result[i.conn := accepted] else s.result
    requires if i.Join? then TrailOf(s.applied, i.conn).Silent? else TrailOf(s.applied, i.conn).JoinedOnly?
    ensures Fits(ViewOf(cfg, t, i.conn))
  {
    TrailAppend(s.applied, i, i.conn);
  }

  lemma ApplyViews(cfg: Config, s: State, admitted: bool)
    requires Orderly(cfg, s) && Exec(cfg, s, Apply(admitted)).Some?
    ensures AllFit(cfg, Exec(cfg, s, Apply(admitted)).value)
  {
    var i := s.batch[0];
    var t := Exec(cfg, s, Apply(admitted)).value;
    NextInOrder(cfg, s);
    ApplyWrites(cfg, s, admitted);
    assert Fits(ViewOf(cfg, s, i.conn));
    var accepted := admitted && cfg.uuid[i.conn] !in s.online;
    ApplyOwn(cfg, s, t, i, accepted);
    forall d | d in cfg.uuid && d != i.conn ensures ViewOf(cfg, t, d) == ViewOf(cfg, s, d) {
      ApplyOthers(cfg, s, t, i, accepted, d);
    }
    OneChanges(cfg, s, t, i.conn);
  }

  /** Who is present after an intent was handled. */
  lemma ApplyPresence(cfg: Config, s: State, admitted: bool)
    requires Orderly(cfg, s) && Exec(cfg, s, Apply(admitted)).Some?
    ensures var t := Exec(cfg, s, Apply(admitted)).value;
            var i := s.batch[0];
            && (Present(t, i.conn) <==> i.Join? && admitted && cfg.uuid[i.conn] !in s.online)
            && (i.Join? ==> !Present(s, i.conn))
            && forall d :: d in cfg.uuid && d != i.conn ==> (Present(t, d) <==> Present(s, d))
  {
    var i := s.batch[0];
    var t := Exec(cfg, s, Apply(admitted)).value;
    NextInOrder(cfg, s);
    TrailAppend(s.applied, i, i.conn);
    forall d | d in cfg.uuid && d != i.conn ensures Present(t, d) <==> Present(s, d) {
      TrailAppend(s.applied, i, d);
    }
  }

  lemma HeadMoves(handled: seq<Intent>, batch: seq<Intent>, queue: seq<Intent>)
    requires batch != []
    ensures handled + [batch[0]] + batch[1..] + queue == handled + batch + queue
  {
    assert [batch[0]] + batch[1..] == batch;
  }

  lemma ApplyBooks(cfg: Config, s: State, admitted: bool)
    requires Books(cfg, s) && Exec(cfg, s, Apply(admitted)).Some?
    ensures var t := Exec(cfg, s, Apply(admitted)).value;
            Books(cfg, t) && t.phase == s.phase && t.roster == s.roster
  {
    HeadMoves(s.applied, s.batch, s.queue);
  }

  lemma ApplyWitnessed(cfg: Config, s: State, admitted: bool)
    requires Orderly(cfg, s) && Exec(cfg, s, Apply(admitted)).Some?
    ensures Witnessed(cfg, Exec(cfg, s, Apply(admitted)).value)
  {
    var t := Exec(cfg, s, Apply(admitted)).value;
    var i := s.batch[0];
    ApplyPresence(cfg, s, admitted);
    forall u | u in t.online ensures exists c :: c in cfg.uuid && cfg.uuid[c] == u && Present(t, c) {
      if u in s.online {
        var c :| c in cfg.uuid && cfg.uuid[c] == u && Present(s, c);
        assert c != i.conn;
        assert Present(t, c);
      } else {
        assert Present(t, i.conn);
      }
    }
  }

  lemma ApplyKeeps(cfg: Config, s: State, admitted: bool)
    requires Orderly(cfg, s) && Exec(cfg, s, Apply(admitted)).Some?
    ensures Orderly(cfg, Exec(cfg, s, Apply(admitted)).value)
  {
    ApplyBooks(cfg, s, admitted);
    ApplyViews(cfg, s, admitted);
    ApplyWitnessed(cfg, s, admitted);
  }

  lemma DrainKeeps(cfg: Config, s: State)
    requires Orderly(cfg, s) && Exec(cfg, s, Drain).Some?
    ensures Orderly(cfg, Exec(cfg, s, Drain).value)
  {
    var t := Exec(cfg, s, Drain).value;
    assert t.posted == t.applied + t.batch + t.queue;
    forall d | d in cfg.uuid ensures Fits(ViewOf(cfg, t, d)) {
      assert ViewOf(cfg, t, d) == ViewOf(cfg, s, d);
    }
    PresenceUnmoved(cfg, s, t);
  }

  /** The steps in which a connection posts an intent. */
  lemma PostKeeps(cfg: Config, s: State, step: Step)
    requires Orderly(cfg, s) && Exec(cfg, s, step).Some?
    requires step.PostJoin? || step.PostCleanup? || step.PostClose?
    ensures Orderly(cfg, Exec(cfg, s, step).value)
  {
    assert Fits(ViewOf(cfg, s, step.c));
    if step.PostJoin? {
      EnqueueKeeps(cfg, s, step.c, Waiting, Join(step.c));
    } else {
      EnqueueKeeps(cfg, s, step.c, Closed, Disconnect(step.c));
    }
  }

  /** The steps in which a connection only moves on. */
  lemma MoveKeeps(cfg: Config, s: State, step: Step)
    requires Orderly(cfg, s) && Exec(cfg, s, step).Some?
    requires step.PostJoinTimesOut? || step.ReceiveResult? || step.ResultTimesOut?
    ensures Orderly(cfg, Exec(cfg, s, step).value)
  {
    assert Fits(ViewOf(cfg, s, step.c));
    var phase := if step.PostJoinTimesOut? then Closed
                 else if step.ResultTimesOut? then Abandoned
                 else if s.result[step.c] then Joined else Closed;
    EnterKeeps(cfg, s, step.c, phase, s.roster);
  }

  /** The steps that write the roster. */
  lemma ListKeeps(cfg: Config, s: State, step: Step)
    requires Orderly(cfg, s) && Exec(cfg, s, step).Some?
    requires step.AddSession? || step.RemoveSession?
    ensures Orderly(cfg, Exec(cfg, s, step).value)
  {
    assert Fits(ViewOf(cfg, s, step.c));
    if step.AddSession? {
      EnterKeeps(cfg, s, step.c, Playing, s.roster[cfg.uuid[step.c] := step.c]);
    } else {
      EnterKeeps(cfg, s, step.c, Unlisted, s.roster - {cfg.uuid[step.c]});
    }
  }

  lemma {:induction false} StepKeepsOrder(cfg: Config, s: State, step: Step)
    requires Orderly(cfg, s) && Exec(cfg, s, step).Some?
    ensures Orderly(cfg, Exec(cfg, s, step).value)
  {
    if step.Drain? {
      DrainKeeps(cfg, s);
    } else if step.Apply? {
      ApplyKeeps(cfg, s, step.admitted);
    } else if step.PostJoin? || step.PostCleanup? || step.PostClose? {
      PostKeeps(cfg, s, step);
    } else if step.AddSession? || step.RemoveSession? {
      ListKeeps(cfg, s, step);
    } else {
      MoveKeeps(cfg, s, step);
    }
  }

  lemma ApplyPresentOnline(cfg: Config, s: State, admitted: bool)
    requires DistinctPlayers(cfg) && Orderly(cfg, s) && PresentOnline(cfg, s)
    requires Exec(cfg, s, Apply(admitted)).Some?
    ensures PresentOnline(cfg, Exec(cfg, s, Apply(admitted)).value)
  {
    ApplyPresence(cfg, s, admitted);
    ApplyWrites(cfg, s, admitted);
  }

  lemma ApplyKeepsAll(cfg: Config, s: State, admitted: bool)
    requires DistinctPlayers(cfg) && Invariant(cfg, s) && Exec(cfg, s, Apply(admitted)).Some?
    ensures Invariant(cfg, Exec(cfg, s, Apply(admitted)).value)
  {
    var t := Exec(cfg, s, Apply(admitted)).value;
    ApplyKeeps(cfg, s, admitted);
    ApplyPresentOnline(cfg, s, admitted);
    ApplyBooks(cfg, s, admitted);
    RosterUnmoved(cfg, s, t);
  }

  /** No other step changes who is online, what was answered or what was handled. */
  lemma OthersKeepPresence(cfg: Config, s: State, step: Step)
    requires PresentOnline(cfg, s) && !step.Apply? && Exec(cfg, s, step).Some?
    ensures PresentOnline(cfg, Exec(cfg, s, step).value)
  {
    PresenceUnmoved(cfg, s, Exec(cfg, s, step).value);
  }

  /** Presence and roster under distinct players. */
  lemma {:induction false} StepKeeps(cfg: Config, s: State, step: Step)
    requires DistinctPlayers(cfg) && Invariant(cfg, s) && Exec(cfg, s, step).Some?
    ensures Invariant(cfg, Exec(cfg, s, step).value)
  {
    if step.Apply? {
      ApplyKeepsAll(cfg, s, step.admitted);
    } else {
      StepKeepsOrder(cfg, s, step);
      OthersKeepPresence(cfg, s, step);
      RosterKeeps(cfg, s, step);
    }
  }

  lemma RosterKeeps(cfg: Config, s: State, step: Step)
    requires DistinctPlayers(cfg) && RosterFits(cfg, s) && s.phase.Keys == cfg.uuid.Keys
    requires !step.Apply? && Exec(cfg, s, step).Some?
    ensures RosterFits(cfg, Exec(cfg, s, step).value)
  {
    if step.AddSession? {
      AddKeepsRoster(cfg, s, step.c);
    } else if step.RemoveSession? {
      RemoveKeepsRoster(cfg, s, step.c);
    } else {
      RosterUnmoved(cfg, s, Exec(cfg, s, step).value);
    }
  }

  lemma AddKeepsRoster(cfg: Config, s: State, c: Conn)
    requires DistinctPlayers(cfg) && RosterFits(cfg, s) && c in cfg.uuid
    ensures RosterFits(cfg, Enter(s, c, Playing).(roster := s.roster[cfg.uuid[c] := c]))
  {
    var t := Enter(s, c, Playing).(roster := s.roster[cfg.uuid[c] := c]);
    assert forall d :: d != c ==> (At(t, d, Playing) <==> At(s, d, Playing));
  }

  lemma RemoveKeepsRoster(cfg: Config, s: State, c: Conn)
    requires DistinctPlayers(cfg) && RosterFits(cfg, s) && c in cfg.uuid
    ensures RosterFits(cfg, Enter(s, c, Unlisted).(roster := s.roster - {cfg.uuid[c]}))
  {
    var t := Enter(s, c, Unlisted).(roster := s.roster - {cfg.uuid[c]});
    assert forall d :: d != c ==> (At(t, d, Playing) <==> At(s, d, Playing));
  }

  lemma {:induction false} RunKeepsOrder(cfg: Config, steps: seq<Step>)
    requires Run(cfg, steps).Some?
    ensures Orderly(cfg, Run(cfg, steps).value)
  {
    if steps != [] {
      RunKeepsOrder(cfg, steps[..|steps| - 1]);
      StepKeepsOrder(cfg, Run(cfg, steps[..|steps| - 1]).value, steps[|steps| - 1]);
    }
  }

  lemma {:induction false} RunKeeps(cfg: Config, steps: seq<Step>)
    requires DistinctPlayers(cfg) && Run(cfg, steps).Some?
    ensures Invariant(cfg, Run(cfg, steps).value)
  {
    if steps != [] {
      RunKeeps(cfg, steps[..|steps| - 1]);
      StepKeeps(cfg, Run(cfg, steps[..|steps| - 1]).value, steps[|steps| - 1]);
    }
  }

  // ----- what every interleaving guarantees

  /** No connection ever queues more than one join and, after it, one disconnect. A finished
      connection whose join was queued and not rejected has queued exactly that. */
  lemma {:induction false} JoinIsMatchedByOneDisconnect(cfg: Config, steps: seq<Step>, c: Conn)
    requires Run(cfg, steps).Some? && c in cfg.uuid
    ensures var s := Run(cfg, steps).value;
            var mine := Mine(s.posted, c);
            && (mine == [] || mine == [Join(c)] || mine == [Join(c), Disconnect(c)])
            && (At(s, c, Closed) && mine != [] && !(c in s.result && !s.result[c]) ==>
                  mine == [Join(c), Disconnect(c)])
  {
    RunKeepsOrder(cfg, steps);
    var s := Run(cfg, steps).value;
    assert Fits(ViewOf(cfg, s, c));
    TrailMeans(s.posted, c);
  }

  /** Nothing of connection c is waiting to be handled. */
  predicate Settled(s: State, c: Conn) {
    forall i :: i in s.batch + s.queue ==> i.conn != c
  }

  /** Once a connection has ended and nothing of it is left to handle, it is no longer present. */
  lemma SettledIsAbsent(cfg: Config, s: State, c: Conn)
    requires Orderly(cfg, s) && c in cfg.uuid && s.phase[c] == Closed && Settled(s, c)
    ensures !Present(s, c)
  {
    assert s.applied + s.batch + s.queue == s.applied + (s.batch + s.queue);
    TrailGrows(s.applied, s.batch + s.queue, c);
    assert Fits(ViewOf(cfg, s, c));
  }

  /** Once all connections of a player have ended and nothing of them is left to handle, the
      player is offline. */
  lemma NobodyIsLeftBehind(cfg: Config, steps: seq<Step>, u: Uuid)
    requires Run(cfg, steps).Some?
    requires var s := Run(cfg, steps).value;
             forall c :: c in cfg.uuid && cfg.uuid[c] == u ==> At(s, c, Closed) && Settled(s, c)
    ensures u !in Run(cfg, steps).value.online
  {
    RunKeepsOrder(cfg, steps);
    var s := Run(cfg, steps).value;
    if u in s.online {
      var c :| c in cfg.uuid && cfg.uuid[c] == u && Present(s, c);
      SettledIsAbsent(cfg, s, c);
    }
  }

  /** When every connection has ended and the queue has drained, the server is empty. */
  lemma EveryoneLeaves(cfg: Config, steps: seq<Step>)
    requires Run(cfg, steps).Some?
    requires var s := Run(cfg, steps).value;
             s.batch == [] && s.queue == [] && forall c :: c in cfg.uuid ==> At(s, c, Closed)
    ensures Run(cfg, steps).value.online == {}
  {
    forall u ensures u !in Run(cfg, steps).value.online {
      NobodyIsLeftBehind(cfg, steps, u);
    }
  }

  /** A session in the roster has an accepted join, no queued disconnect, and its player online. */
  lemma RosterIsLive(cfg: Config, steps: seq<Step>, u: Uuid)
    requires DistinctPlayers(cfg) && Run(cfg, steps).Some?
    requires u in Run(cfg, steps).value.roster
    ensures var s := Run(cfg, steps).value;
            var c := s.roster[u];
            && c in cfg.uuid && cfg.uuid[c] == u
            && c in s.result && s.result[c]
            && Mine(s.posted, c) == [Join(c)]
            && u in s.online
  {
    RunKeeps(cfg, steps);
    var s := Run(cfg, steps).value;
    PlayingIsLive(cfg, s, s.roster[u]);
  }

  lemma PlayingIsLive(cfg: Config, s: State, c: Conn)
    requires Invariant(cfg, s) && c in cfg.uuid && s.phase[c] == Playing
    ensures c in s.result && s.result[c] && Mine(s.posted, c) == [Join(c)] && cfg.uuid[c] in s.online
  {
    assert Fits(ViewOf(cfg, s, c));
    TrailMeans(s.posted, c);
    HandledIsPosted(cfg, s, c);
  }

  /** A connection's handled intents have not got further than its posted ones. */
  lemma HandledIsPosted(cfg: Config, s: State, c: Conn)
    requires Books(cfg, s)
    ensures Rank(TrailOf(s.applied, c)) <= Rank(TrailOf(s.posted, c))
  {
    assert s.posted == s.applied + (s.batch + s.queue);
    TrailGrows(s.applied, s.batch + s.queue, c);
  }

  // ----- two connections for one player

  /** In every run, every rostered player is online. */
  ghost predicate RosterAlwaysLive(cfg: Config) {
    forall steps: seq<Step>, u: Uuid ::
      Run(cfg, steps).Some? && u in Run(cfg, steps).value.roster ==> u in Run(cfg, steps).value.online
  }

  /** Extends a run by one step. */
  lemma Continue(cfg: Config, steps: seq<Step>, step: Step)
    requires Run(cfg, steps).Some?
    ensures Run(cfg, steps + [step]) == Exec(cfg, Run(cfg, steps).value, step)
  {
    assert (steps + [step])[..|steps|] == steps;
  }

  /** Connection c logs in and plays. */
  lemma LogIn(cfg: Config, c: Conn) returns (steps: seq<Step>)
    requires c in cfg.uuid && cfg.capacity > 0
    ensures Run(cfg, steps).Some?
    ensures var s := Run(cfg, steps).value;
            && (forall d :: d in cfg.uuid && d != c ==> At(s, d, Connecting))
            && s.queue == [] && s.batch == []
            && cfg.uuid[c] in s.online && cfg.uuid[c] in s.roster && At(s, c, Playing)
    ensures forall d :: ResultTimesOut(d) !in steps
  {
    steps := [];
    Continue(cfg, steps, PostJoin(c));
    steps := steps + [PostJoin(c)];
    assert Run(cfg, steps).value.queue == [Join(c)];
    Continue(cfg, steps, Drain);
    steps := steps + [Drain];
    Continue(cfg, steps, Apply(true));
    steps := steps + [Apply(true)];
    Continue(cfg, steps, ReceiveResult(c));
    steps := steps + [ReceiveResult(c)];
    Continue(cfg, steps, AddSession(c));
    steps := steps + [AddSession(c)];
  }

  /** A second login of the same player is a duplicate, and gives up waiting before it hears so. */
  lemma LogInAgain(cfg: Config, c: Conn, d: Conn) returns (steps: seq<Step>)
    requires c in cfg.uuid && d in cfg.uuid && c != d && cfg.uuid[c] == cfg.uuid[d] && cfg.capacity > 0
    ensures Run(cfg, steps).Some?
    ensures var s := Run(cfg, steps).value;
            At(s, d, Abandoned) && s.queue == [] && s.batch == [] && cfg.uuid[c] in s.roster
  {
    steps := LogIn(cfg, c);
    Continue(cfg, steps, PostJoin(d));
    steps := steps + [PostJoin(d)];
    assert Run(cfg, steps).value.queue == [Join(d)];
    Continue(cfg, steps, ResultTimesOut(d));
    steps := steps + [ResultTimesOut(d)];
    Continue(cfg, steps, Drain);
    steps := steps + [Drain];
    Continue(cfg, steps, Apply(true));
    steps := steps + [Apply(true)];
  }

  /** The cleanup disconnect of such a login removes the player of the first, who is still in the
      roster. */
  lemma SharedPlayerIsRemoved(cfg: Config, c: Conn, d: Conn) returns (steps: seq<Step>)
    requires c in cfg.uuid && d in cfg.uuid && c != d && cfg.uuid[c] == cfg.uuid[d] && cfg.capacity > 0
    ensures Run(cfg, steps).Some?
    ensures cfg.uuid[c] in Run(cfg, steps).value.roster && cfg.uuid[c] !in Run(cfg, steps).value.online
  {
    steps := LogInAgain(cfg, c, d);
    Continue(cfg, steps, PostCleanup(d));
    steps := steps + [PostCleanup(d)];
    assert Run(cfg, steps).value.queue == [Disconnect(d)];
    Continue(cfg, steps, Drain);
    steps := steps + [Drain];
    Continue(cfg, steps, Apply(true));
    steps := steps + [Apply(true)];
  }

  /** The roster is live in every run if and only if no two connections share a player. */
  lemma RosterLiveExactlyForDistinctPlayers(cfg: Config)
    requires cfg.capacity > 0
    ensures RosterAlwaysLive(cfg) <==> DistinctPlayers(cfg)
  {
    if DistinctPlayers(cfg) {
      forall steps: seq<Step>, u: Uuid | Run(cfg, steps).Some? && u in Run(cfg, steps).value.roster
        ensures u in Run(cfg, steps).value.online
      {
        RosterIsLive(cfg, steps, u);
      }
    } else {
      var c, d :| c in cfg.uuid && d in cfg.uuid && c != d && cfg.uuid[c] == cfg.uuid[d];
      var steps := SharedPlayerIsRemoved(cfg, c, d);
    }
  }
}
