/**
 Who takes a player offline (bedrock/listener.go, core/intent/intent.go): rejected
 logins post nothing, and a playing session's player leaves by its own disconnect
 unless another login of the same player timed out.
 */
module Leaving {
  import opened Options
  import opened Lifecycle

  /** The queue never holds more than its capacity. */
  lemma {:induction false} QueueFits(cfg: Config, steps: seq<Step>)
    requires Run(cfg, steps).Some?
    ensures |Run(cfg, steps).value.queue| <= cfg.capacity
  {
    if steps != [] {
      var n := |steps| - 1;
      QueueFits(cfg, steps[..n]);
      StepKeepsQueue(cfg, Run(cfg, steps[..n]).value, steps[n]);
    }
  }

  lemma StepKeepsQueue(cfg: Config, s: State, step: Step)
    requires |s.queue| <= cfg.capacity && Exec(cfg, s, step).Some?
    ensures |Exec(cfg, s, step).value.queue| <= cfg.capacity
  {
  }

  /** A join is accepted exactly when it is admitted and its player offline, and then brings the player
      online; a disconnect takes its player offline; nobody else comes or goes. */
  lemma IntentsAreAnswered(cfg: Config, s: State, admitted: bool, u: Uuid)
    requires Exec(cfg, s, Apply(admitted)).Some?
    ensures var t, i := Exec(cfg, s, Apply(admitted)).value, s.batch[0];
            && i.conn in cfg.uuid
            && (i.Join? ==> i.conn in t.result && (t.result[i.conn] <==> admitted && cfg.uuid[i.conn] !in s.online))
            && (u in t.online <==>
                  if cfg.uuid[i.conn] != u then u in s.online
                  else i.Join? && (admitted || u in s.online))
            && forall c :: c != i.conn ==>
                 (c in t.result <==> c in s.result) && (c in s.result ==> t.result[c] == s.result[c])
  {
  }

  // ----- connections that heard their result in time

  /** The connection is not cleaning up after a missed result, and only an accepted one has posted a
      disconnect. */
  predicate Heard(s: State, c: Conn) {
    && !At(s, c, Abandoned)
    && (TrailOf(s.posted, c).JoinedThenLeft? ==> c in s.result && s.result[c])
  }

  lemma HeardAfterApply(cfg: Config, s: State, admitted: bool, c: Conn)
    requires Orderly(cfg, s) && c in cfg.uuid && Heard(s, c) && Exec(cfg, s, Apply(admitted)).Some?
    ensures Heard(Exec(cfg, s, Apply(admitted)).value, c)
  {
    ApplyWrites(cfg, s, admitted);
    assert Fits(ViewOf(cfg, s, c));
    if s.batch[0] == Join(c) { NextInOrder(cfg, s); }
  }

  lemma HeardAfterPost(s: State, c: Conn, i: Intent, phase: Phase)
    requires Heard(s, c) && phase != Abandoned && TrailOf(s.posted, c) != JoinedThenLeft
    requires i.conn == c && i.Disconnect? ==> c in s.result && s.result[c]
    ensures Heard(Enqueue(Enter(s, i.conn, phase), i), c)
  {
    TrailAppend(s.posted, i, c);
  }

  lemma HeardElsewhere(s: State, c: Conn, i: Intent, phase: Phase)
    requires Heard(s, c) && i.conn != c
    ensures Heard(Enqueue(Enter(s, i.conn, phase), i), c)
  {
    TrailAppend(s.posted, i, c);
  }

  lemma HeardAfterPosting(cfg: Config, s: State, step: Step, c: Conn)
    requires Orderly(cfg, s) && c in cfg.uuid && Heard(s, c) && Exec(cfg, s, step).Some?
    requires step.PostJoin? || step.PostCleanup? || step.PostClose?
    ensures Heard(Exec(cfg, s, step).value, c)
  {
    var i, phase := if step.PostJoin? then Join(step.c) else Disconnect(step.c), if step.PostJoin? then Waiting else Closed;
    if step.c == c {
      assert Fits(ViewOf(cfg, s, c));
      HeardAfterPost(s, c, i, phase);
    } else {
      HeardElsewhere(s, c, i, phase);
    }
  }

  lemma StepKeepsHeard(cfg: Config, s: State, step: Step, c: Conn)
    requires Orderly(cfg, s) && c in cfg.uuid && Heard(s, c)
    requires step != ResultTimesOut(c) && Exec(cfg, s, step).Some?
    ensures Heard(Exec(cfg, s, step).value, c)
  {
    if step.Apply? {
      HeardAfterApply(cfg, s, step.admitted, c);
    } else if step.PostJoin? || step.PostCleanup? || step.PostClose? {
      HeardAfterPosting(cfg, s, step, c);
    }
  }

  lemma {:induction false} InTimeIsHeard(cfg: Config, steps: seq<Step>, c: Conn)
    requires Run(cfg, steps).Some? && c in cfg.uuid && ResultTimesOut(c) !in steps
    ensures Heard(Run(cfg, steps).value, c)
  {
    if steps != [] {
      var n := |steps| - 1;
      InTimeIsHeard(cfg, steps[..n], c);
      RunKeepsOrder(cfg, steps[..n]);
      StepKeepsHeard(cfg, Run(cfg, steps[..n]).value, steps[n], c);
    }
  }

  /** A rejected login that heard so in time posts nothing but its join, in every run. */
  lemma RejectedPostsNothing(cfg: Config, steps: seq<Step>, c: Conn)
    requires Run(cfg, steps).Some? && c in cfg.uuid && ResultTimesOut(c) !in steps
    requires var s := Run(cfg, steps).value; c in s.result && !s.result[c]
    ensures Mine(Run(cfg, steps).value.posted, c) == [Join(c)]
  {
    var s := Run(cfg, steps).value;
    InTimeIsHeard(cfg, steps, c);
    RunKeepsOrder(cfg, steps);
    assert Fits(ViewOf(cfg, s, c));
    HandledIsPosted(cfg, s, c);
    TrailMeans(s.posted, c);
  }

  /** Handling the next intent takes the player offline. */
  predicate TakesOffline(cfg: Config, s: State, admitted: bool, u: Uuid) {
    && Exec(cfg, s, Apply(admitted)).Some?
    && u in s.online && u !in Exec(cfg, s, Apply(admitted)).value.online
  }

  /** A player goes offline only by a disconnect of a connection of its own that was accepted or that
      did not hear its result in time; never by one that was told it is rejected. */
  lemma OnlyAcceptedOrTimedOutTakeOffline(cfg: Config, steps: seq<Step>, admitted: bool, u: Uuid)
    requires Run(cfg, steps).Some? && TakesOffline(cfg, Run(cfg, steps).value, admitted, u)
    ensures var s := Run(cfg, steps).value;
            var i := s.batch[0];
            && i.Disconnect? && i.conn in cfg.uuid && cfg.uuid[i.conn] == u
            && (ResultTimesOut(i.conn) in steps || (i.conn in s.result && s.result[i.conn]))
  {
    var s := Run(cfg, steps).value;
    ApplyWrites(cfg, s, admitted);
    RunKeepsOrder(cfg, steps);
    NextInOrder(cfg, s);
    var c := s.batch[0].conn;
    assert Fits(ViewOf(cfg, s, c));
    if ResultTimesOut(c) !in steps { InTimeIsHeard(cfg, steps, c); }
  }

  // ----- without timeouts, playing sessions are online

  /** No connection of the player ever misses its result. */
  predicate NoTimeouts(cfg: Config, steps: seq<Step>, u: Uuid) {
    forall c :: c in cfg.uuid && cfg.uuid[c] == u ==> ResultTimesOut(c) !in steps
  }

  /** Two connections of one player are both in. */
  predicate BothIn(cfg: Config, s: State, c: Conn, d: Conn) {
    c in cfg.uuid && d in cfg.uuid && c != d && cfg.uuid[c] == cfg.uuid[d] && Present(s, c) && Present(s, d)
  }

  /** At most one connection of the player is in, and the player is online while one is. */
  ghost predicate Single(cfg: Config, s: State, u: Uuid) {
    && (forall c :: c in cfg.uuid && cfg.uuid[c] == u && Present(s, c) ==> u in s.online)
    && (forall c, d :: BothIn(cfg, s, c, d) ==> cfg.uuid[c] != u)
  }

  lemma ApplyKeepsSingle(cfg: Config, s: State, admitted: bool, u: Uuid)
    requires Orderly(cfg, s) && Single(cfg, s, u) && Exec(cfg, s, Apply(admitted)).Some?
    requires forall c :: c in cfg.uuid && cfg.uuid[c] == u ==> Heard(s, c)
    ensures Single(cfg, Exec(cfg, s, Apply(admitted)).value, u)
  {
    var i, t := s.batch[0], Exec(cfg, s, Apply(admitted)).value;
    ApplyPresence(cfg, s, admitted);
    ApplyWrites(cfg, s, admitted);
    if i.Disconnect? && cfg.uuid[i.conn] == u { HeardDisconnectIsPresent(cfg, s); }
    forall c | c in cfg.uuid && cfg.uuid[c] == u && Present(t, c) ensures u in t.online {
      if c != i.conn && i.Disconnect? && cfg.uuid[i.conn] == u { assert BothIn(cfg, s, c, i.conn); }
    }
    forall c, d | BothIn(cfg, t, c, d) ensures cfg.uuid[c] != u {
      if c != i.conn && d != i.conn { assert BothIn(cfg, s, c, d); }
    }
  }

  /** The next disconnect, of a connection that heard its result, ends its presence. */
  lemma HeardDisconnectIsPresent(cfg: Config, s: State)
    requires Orderly(cfg, s) && s.batch != [] && s.batch[0].Disconnect? && s.batch[0].conn in cfg.uuid
    requires Heard(s, s.batch[0].conn)
    ensures Present(s, s.batch[0].conn)
  {
    NextInOrder(cfg, s);
    assert Fits(ViewOf(cfg, s, s.batch[0].conn));
  }

  lemma OtherStepsKeepSingle(cfg: Config, s: State, step: Step, u: Uuid)
    requires Single(cfg, s, u) && !step.Apply? && Exec(cfg, s, step).Some?
    ensures Single(cfg, Exec(cfg, s, step).value, u)
  {
    var t := Exec(cfg, s, step).value;
    assert forall c :: Present(t, c) <==> Present(s, c);
    assert forall c, d :: BothIn(cfg, t, c, d) ==> BothIn(cfg, s, c, d);
  }

  lemma {:induction false} WithoutTimeoutsSingle(cfg: Config, steps: seq<Step>, u: Uuid)
    requires Run(cfg, steps).Some? && NoTimeouts(cfg, steps, u)
    ensures Single(cfg, Run(cfg, steps).value, u)
  {
    if steps != [] {
      var n := |steps| - 1;
      var s := Run(cfg, steps[..n]).value;
      assert NoTimeouts(cfg, steps[..n], u);
      WithoutTimeoutsSingle(cfg, steps[..n], u);
      RunKeepsOrder(cfg, steps[..n]);
      if steps[n].Apply? {
        forall c | c in cfg.uuid && cfg.uuid[c] == u ensures Heard(s, c) {
          InTimeIsHeard(cfg, steps[..n], c);
        }
        ApplyKeepsSingle(cfg, s, steps[n].admitted, u);
      } else {
        OtherStepsKeepSingle(cfg, s, steps[n], u);
      }
    }
  }

  lemma PlayingIsPresent(cfg: Config, s: State, c: Conn)
    requires Orderly(cfg, s) && c in cfg.uuid && At(s, c, Playing)
    ensures Present(s, c)
  {
    assert Fits(ViewOf(cfg, s, c));
    HandledIsPosted(cfg, s, c);
  }

  /** While no connection of the player misses its result, a playing session's player is online and
      no other session of the player is playing, however many connections share the player. */
  lemma PlayingIsOnline(cfg: Config, steps: seq<Step>, c: Conn)
    requires Run(cfg, steps).Some? && c in cfg.uuid && NoTimeouts(cfg, steps, cfg.uuid[c])
    requires At(Run(cfg, steps).value, c, Playing)
    ensures cfg.uuid[c] in Run(cfg, steps).value.online
    ensures forall d :: d in cfg.uuid && cfg.uuid[d] == cfg.uuid[c] && At(Run(cfg, steps).value, d, Playing) ==> d == c
  {
    var s := Run(cfg, steps).value;
    RunKeepsOrder(cfg, steps);
    WithoutTimeoutsSingle(cfg, steps, cfg.uuid[c]);
    PlayingIsPresent(cfg, s, c);
    forall d | d in cfg.uuid && cfg.uuid[d] == cfg.uuid[c] && At(s, d, Playing) ensures d == c {
      PlayingIsPresent(cfg, s, d);
      assert d != c ==> BothIn(cfg, s, c, d);
    }
  }

  // ----- with timeouts: whose disconnect it is

  /** The connection came and went. */
  predicate Departed(s: State, c: Conn) {
    TrailOf(s.applied, c).JoinedThenLeft?
  }

  /** Another connection of the player than these two has come and gone. */
  ghost predicate ThirdDeparted(cfg: Config, s: State, c: Conn, d: Conn)
    requires c in cfg.uuid
  {
    exists f :: f in cfg.uuid && f != c && f != d && cfg.uuid[f] == cfg.uuid[c] && Departed(s, f)
  }

  /** A connection that is in while its player is offline was overtaken by another one's disconnect,
      and where two are in at once a third was. */
  ghost predicate Overtaken(cfg: Config, s: State) {
    && (forall c :: c in cfg.uuid && Present(s, c) && cfg.uuid[c] !in s.online ==> ThirdDeparted(cfg, s, c, c))
    && (forall c, d :: BothIn(cfg, s, c, d) ==> ThirdDeparted(cfg, s, c, d))
  }

  lemma DepartedStays(cfg: Config, s: State, admitted: bool, f: Conn)
    requires Orderly(cfg, s) && f in cfg.uuid && Exec(cfg, s, Apply(admitted)).Some?
    ensures var t, i := Exec(cfg, s, Apply(admitted)).value, s.batch[0];
            Departed(t, f) <==> Departed(s, f) || i == Disconnect(f)
  {
    ApplyWrites(cfg, s, admitted);
    NextInOrder(cfg, s);
    TrailAppend(s.applied, s.batch[0], f);
  }

  lemma ThirdStays(cfg: Config, s: State, admitted: bool, c: Conn, d: Conn)
    requires Orderly(cfg, s) && c in cfg.uuid && ThirdDeparted(cfg, s, c, d) && Exec(cfg, s, Apply(admitted)).Some?
    ensures ThirdDeparted(cfg, Exec(cfg, s, Apply(admitted)).value, c, d)
  {
    var f :| f in cfg.uuid && f != c && f != d && cfg.uuid[f] == cfg.uuid[c] && Departed(s, f);
    DepartedStays(cfg, s, admitted, f);
  }

  /** One that was in before the join is overtaken by a third when the join is accepted. */
  lemma JoinedBeside(cfg: Config, s: State, admitted: bool, c: Conn)
    requires Orderly(cfg, s) && Overtaken(cfg, s) && Exec(cfg, s, Apply(admitted)).Some? && s.batch[0].Join?
    requires c in cfg.uuid && Present(s, c) && cfg.uuid[c] !in s.online && cfg.uuid[c] == cfg.uuid[s.batch[0].conn]
    ensures ThirdDeparted(cfg, Exec(cfg, s, Apply(admitted)).value, c, s.batch[0].conn)
  {
    var e := s.batch[0].conn;
    NextInOrder(cfg, s);
    assert ThirdDeparted(cfg, s, c, c);
    var f :| f in cfg.uuid && f != c && cfg.uuid[f] == cfg.uuid[c] && Departed(s, f);
    assert f != e;
    DepartedStays(cfg, s, admitted, f);
  }

  lemma OfflineAfterApply(cfg: Config, s: State, admitted: bool, c: Conn)
    requires Orderly(cfg, s) && Overtaken(cfg, s) && Exec(cfg, s, Apply(admitted)).Some? && c in cfg.uuid
    requires var t := Exec(cfg, s, Apply(admitted)).value; Present(t, c) && cfg.uuid[c] !in t.online
    ensures ThirdDeparted(cfg, Exec(cfg, s, Apply(admitted)).value, c, c)
  {
    var i := s.batch[0];
    ApplyPresence(cfg, s, admitted);
    ApplyWrites(cfg, s, admitted);
    if cfg.uuid[c] in s.online {
      DepartedStays(cfg, s, admitted, i.conn);
    } else {
      ThirdStays(cfg, s, admitted, c, c);
    }
  }

  lemma TwoAfterApply(cfg: Config, s: State, admitted: bool, c: Conn, d: Conn)
    requires Orderly(cfg, s) && Overtaken(cfg, s) && Exec(cfg, s, Apply(admitted)).Some?
    requires BothIn(cfg, Exec(cfg, s, Apply(admitted)).value, c, d)
    ensures ThirdDeparted(cfg, Exec(cfg, s, Apply(admitted)).value, c, d)
  {
    ApplyPresence(cfg, s, admitted);
    if s.batch[0].conn == d {
      JoinedBeside(cfg, s, admitted, c);
    } else if s.batch[0].conn == c {
      JoinedBeside(cfg, s, admitted, d);
    } else {
      ThirdStays(cfg, s, admitted, c, d);
    }
  }

  lemma StepKeepsOvertaken(cfg: Config, s: State, step: Step)
    requires Orderly(cfg, s) && Overtaken(cfg, s) && Exec(cfg, s, step).Some?
    ensures Overtaken(cfg, Exec(cfg, s, step).value)
  {
    var t := Exec(cfg, s, step).value;
    if step.Apply? {
      forall c | c in cfg.uuid && Present(t, c) && cfg.uuid[c] !in t.online ensures ThirdDeparted(cfg, t, c, c) {
        OfflineAfterApply(cfg, s, step.admitted, c);
      }
      forall c, d | BothIn(cfg, t, c, d) ensures ThirdDeparted(cfg, t, c, d) {
        TwoAfterApply(cfg, s, step.admitted, c, d);
      }
    } else {
      OvertakenUnmoved(cfg, s, t);
    }
  }

  lemma OvertakenUnmoved(cfg: Config, s: State, t: State)
    requires Overtaken(cfg, s) && t.online == s.online && t.result == s.result && t.applied == s.applied
    ensures Overtaken(cfg, t)
  {
    assert forall c :: Present(t, c) <==> Present(s, c);
    assert forall c, d :: c in cfg.uuid && ThirdDeparted(cfg, s, c, d) ==> ThirdDeparted(cfg, t, c, d);
  }

  lemma {:induction false} RunKeepsOvertaken(cfg: Config, steps: seq<Step>)
    requires Run(cfg, steps).Some?
    ensures Overtaken(cfg, Run(cfg, steps).value)
  {
    if steps != [] {
      var n := |steps| - 1;
      RunKeepsOvertaken(cfg, steps[..n]);
      RunKeepsOrder(cfg, steps[..n]);
      StepKeepsOvertaken(cfg, Run(cfg, steps[..n]).value, steps[n]);
    }
  }

  /** The intent about to be handled is the connection's own disconnect, or that of one that missed
      its result. */
  predicate OwnOrTimedOut(s: State, steps: seq<Step>, c: Conn) {
    s.batch != [] && s.batch[0].Disconnect? && (s.batch[0].conn == c || ResultTimesOut(s.batch[0].conn) in steps)
  }

  /** In every run, a playing session's player goes offline only like that. */
  ghost predicate AlwaysOwnOrTimedOut(cfg: Config) {
    forall steps: seq<Step>, admitted: bool, c: Conn ::
      Run(cfg, steps).Some? && c in cfg.uuid && At(Run(cfg, steps).value, c, Playing)
      && TakesOffline(cfg, Run(cfg, steps).value, admitted, cfg.uuid[c]) ==>
        OwnOrTimedOut(Run(cfg, steps).value, steps, c)
  }

  /** Three connections authenticate as one player. */
  predicate Three(cfg: Config, c: Conn, d: Conn, e: Conn) {
    && c in cfg.uuid && d in cfg.uuid && e in cfg.uuid
    && c != d && d != e && c != e && cfg.uuid[c] == cfg.uuid[d] == cfg.uuid[e]
  }

  lemma WithoutThirdOwnOrTimedOut(cfg: Config, steps: seq<Step>, admitted: bool, c: Conn)
    requires Run(cfg, steps).Some? && c in cfg.uuid && At(Run(cfg, steps).value, c, Playing)
    requires TakesOffline(cfg, Run(cfg, steps).value, admitted, cfg.uuid[c])
    requires forall d, e :: !Three(cfg, c, d, e)
    ensures OwnOrTimedOut(Run(cfg, steps).value, steps, c)
  {
    var s := Run(cfg, steps).value;
    OnlyAcceptedOrTimedOutTakeOffline(cfg, steps, admitted, cfg.uuid[c]);
    var e := s.batch[0].conn;
    if e != c && ResultTimesOut(e) !in steps {
      RunKeepsOrder(cfg, steps);
      RunKeepsOvertaken(cfg, steps);
      PlayingIsPresent(cfg, s, c);
      InTimeIsHeard(cfg, steps, e);
      HeardDisconnectIsPresent(cfg, s);
      assert ThirdDeparted(cfg, s, c, e);
      var f :| f in cfg.uuid && f != c && f != e && cfg.uuid[f] == cfg.uuid[c] && Departed(s, f);
      assert Three(cfg, c, e, f);
    }
  }

  /** Nothing is waiting to be handled. */
  predicate Idle(s: State) {
    s.queue == [] && s.batch == []
  }

  /** Connection e plays, and f gives up waiting before it hears that it is a duplicate. */
  lemma GivenUp(cfg: Config, e: Conn, f: Conn, c: Conn) returns (steps: seq<Step>)
    requires Three(cfg, e, f, c) && cfg.capacity > 0
    ensures Run(cfg, steps).Some? && forall d :: d != f ==> ResultTimesOut(d) !in steps
    ensures var s := Run(cfg, steps).value;
            Idle(s) && At(s, e, Playing) && At(s, f, Abandoned) && At(s, c, Connecting)
  {
    steps := LogIn(cfg, e);
    Continue(cfg, steps, PostJoin(f));
    steps := steps + [PostJoin(f)];
    assert Run(cfg, steps).value.queue == [Join(f)];
    Continue(cfg, steps, ResultTimesOut(f));
    steps := steps + [ResultTimesOut(f)];
    Continue(cfg, steps, Drain);
    steps := steps + [Drain];
    Continue(cfg, steps, Apply(true));
    steps := steps + [Apply(true)];
  }

  /** The cleanup of f takes the player offline. */
  lemma CleanedUp(cfg: Config, e: Conn, f: Conn, c: Conn) returns (steps: seq<Step>)
    requires Three(cfg, e, f, c) && cfg.capacity > 0
    ensures Run(cfg, steps).Some? && forall d :: d != f ==> ResultTimesOut(d) !in steps
    ensures var s := Run(cfg, steps).value;
            Idle(s) && At(s, e, Playing) && At(s, c, Connecting) && cfg.uuid[c] !in s.online
  {
    steps := GivenUp(cfg, e, f, c);
    Continue(cfg, steps, PostCleanup(f));
    steps := steps + [PostCleanup(f)];
    assert Run(cfg, steps).value.queue == [Disconnect(f)];
    Continue(cfg, steps, Drain);
    steps := steps + [Drain];
    Continue(cfg, steps, Apply(true));
    steps := steps + [Apply(true)];
  }

  /** Then c logs in. */
  lemma Admitted(cfg: Config, e: Conn, f: Conn, c: Conn) returns (steps: seq<Step>)
    requires Three(cfg, e, f, c) && cfg.capacity > 0
    ensures Run(cfg, steps).Some? && forall d :: d != f ==> ResultTimesOut(d) !in steps
    ensures var s := Run(cfg, steps).value;
            && Idle(s) && At(s, e, Playing) && At(s, c, Waiting) && cfg.uuid[c] in s.online
            && c in s.result && s.result[c]
  {
    steps := CleanedUp(cfg, e, f, c);
    Continue(cfg, steps, PostJoin(c));
    steps := steps + [PostJoin(c)];
    assert Run(cfg, steps).value.queue == [Join(c)];
    Continue(cfg, steps, Drain);
    steps := steps + [Drain];
    Continue(cfg, steps, Apply(true));
    steps := steps + [Apply(true)];
  }

  /** And c plays, too. */
  lemma PlaysBeside(cfg: Config, e: Conn, f: Conn, c: Conn) returns (steps: seq<Step>)
    requires Three(cfg, e, f, c) && cfg.capacity > 0
    ensures Run(cfg, steps).Some? && forall d :: d != f ==> ResultTimesOut(d) !in steps
    ensures var s := Run(cfg, steps).value;
            Idle(s) && At(s, e, Playing) && At(s, c, Playing) && cfg.uuid[c] in s.online
  {
    steps := Admitted(cfg, e, f, c);
    Continue(cfg, steps, ReceiveResult(c));
    steps := steps + [ReceiveResult(c)];
    Continue(cfg, steps, AddSession(c));
    steps := steps + [AddSession(c)];
  }

  /** When e leaves, its disconnect takes the player of c offline, although e never timed out. */
  lemma AnotherLeavesFirst(cfg: Config, e: Conn, f: Conn, c: Conn) returns (steps: seq<Step>)
    requires Three(cfg, e, f, c) && cfg.capacity > 0
    ensures Run(cfg, steps).Some? && At(Run(cfg, steps).value, c, Playing)
    ensures TakesOffline(cfg, Run(cfg, steps).value, true, cfg.uuid[c])
    ensures !OwnOrTimedOut(Run(cfg, steps).value, steps, c)
  {
    steps := PlaysBeside(cfg, e, f, c);
    Continue(cfg, steps, RemoveSession(e));
    steps := steps + [RemoveSession(e)];
    Continue(cfg, steps, PostClose(e));
    steps := steps + [PostClose(e)];
    assert Run(cfg, steps).value.queue == [Disconnect(e)];
    Continue(cfg, steps, Drain);
    steps := steps + [Drain];
  }

  /** In every run a playing session's player goes offline only by its own disconnect, or by that of a
      login that timed out, if and only if no three connections share a player. */
  lemma OwnOrTimedOutExactly(cfg: Config)
    requires cfg.capacity > 0
    ensures AlwaysOwnOrTimedOut(cfg) <==> forall c, d, e :: !Three(cfg, c, d, e)
  {
    if forall c, d, e :: !Three(cfg, c, d, e) {
      forall steps: seq<Step>, admitted: bool, c: Conn
        | Run(cfg, steps).Some? && c in cfg.uuid && At(Run(cfg, steps).value, c, Playing)
          && TakesOffline(cfg, Run(cfg, steps).value, admitted, cfg.uuid[c])
        ensures OwnOrTimedOut(Run(cfg, steps).value, steps, c)
      {
        WithoutThirdOwnOrTimedOut(cfg, steps, admitted, c);
      }
    } else {
      var e, f, c :| Three(cfg, e, f, c);
      var steps := AnotherLeavesFirst(cfg, e, f, c);
    }
  }
}
