/**
 Breaking a block (bedrock/listener.go): crack events announced to everyone, and
 the break handed to the simulation at the end.
 */
module BlockBreaking {
  import opened Options

  datatype Position = Position(x: int, y: int, z: int)

  /** The player actions that concern breaking; `OtherAction` stands for the rest. */
  datatype BlockAction =
    | StartBreak(at: Position)
    | ContinueBreak(at: Position)
    | AbortBreak(at: Position)
    | FinishBreak(at: Position)
    | OtherAction

  datatype Crack = CrackStart(at: Position) | CrackUpdate(at: Position) | CrackStop(at: Position)

  /** What the session remembers, the crack events it announced, and the breaks it posted. */
  datatype State = State(breaking: bool, target: Position, cracks: seq<Crack>, breaks: seq<Position>)

  const ORIGIN := Position(0, 0, 0)
  const IDLE := State(false, ORIGIN, [], [])

  function Announce(s: State, c: Crack): State {
    s.(cracks := s.cracks + [c])
  }

  function After(s: State, a: BlockAction): State {
    match a
    case StartBreak(p) => Announce(s.(breaking := true, target := p), CrackStart(p))
    case ContinueBreak(p) =>
      if s.breaking && s.target == p then Announce(s, CrackUpdate(p))
      else Announce((if s.breaking then Announce(s, CrackStop(s.target)) else s).(breaking := true, target := p),
                    CrackStart(p))
    case AbortBreak(p) => Announce(s.(breaking := false), CrackStop(p))
    case FinishBreak(p) =>
      var broken := if s.breaking then s.target else p;
      Announce(s.(breaking := false), CrackStop(broken)).(breaks := s.breaks + [broken])
    case OtherAction => s
  }

  class Session {
    var breaking: bool
    var breakingPos: Position
    ghost var cracks: seq<Crack>
    ghost var breaks: seq<Position>

    /** Every update followed an unstopped start, and the block being broken is the last started. */
    ghost predicate Valid()
      reads this
    {
      Consistent(Now())
    }

    ghost function Now(): State
      reads this
    {
      State(breaking, breakingPos, cracks, breaks)
    }

    constructor ()
      ensures Valid() && Now() == IDLE
    {
      breaking, breakingPos, cracks, breaks := false, ORIGIN, [], [];
    }

    method BroadcastBlockCrack(c: Crack)
      modifies this`cracks
      ensures Now() == Announce(old(Now()), c)
    {
      cracks := cracks + [c];
    }

    /** A continued action updates only a crack that is under way, and starts one otherwise;
        finishing stops and posts the block last started, or the named one when none is being
        broken. */
    method HandlePlayerBlockAction(a: BlockAction)
      requires Valid()
      modifies this
      ensures Valid() && Now() == After(old(Now()), a)
      ensures old(cracks) <= cracks && old(breaks) <= breaks
      ensures breaking <==> a.StartBreak? || a.ContinueBreak? || (a.OtherAction? && old(breaking))
      ensures a.StartBreak? || a.ContinueBreak? ==> breakingPos == a.at && Open(cracks, a.at)
      ensures a.ContinueBreak? && cracks == old(cracks) + [CrackUpdate(a.at)] ==> Open(old(cracks), a.at)
      ensures a.ContinueBreak? && old(breaking) && old(breakingPos) == a.at ==>
                cracks == old(cracks) + [CrackUpdate(a.at)]
      ensures a.ContinueBreak? && old(breaking) && old(breakingPos) != a.at ==>
                cracks == old(cracks) + [CrackStop(old(breakingPos)), CrackStart(a.at)]
      ensures a.StartBreak? || (a.ContinueBreak? && !old(breaking)) ==> cracks == old(cracks) + [CrackStart(a.at)]
      ensures a.AbortBreak? ==> cracks == old(cracks) + [CrackStop(a.at)]
      ensures a.OtherAction? ==> Now() == old(Now())
      ensures a.AbortBreak? || a.FinishBreak? ==> |cracks| == |old(cracks)| + 1 && !Open(cracks, cracks[|old(cracks)|].at)
      ensures a.FinishBreak? ==>
                var broken := if old(breaking) then LastStarted(old(cracks)).value else a.at;
                breaks == old(breaks) + [broken] && cracks == old(cracks) + [CrackStop(broken)]
      ensures !a.FinishBreak? ==> breaks == old(breaks)
    {
      ghost var s := Now();
      ActionKeepsConsistent(s, a);
      OverlayAfter(s, a);
      match a {
        case StartBreak(position) =>
          breakingPos, breaking := position, true;
          BroadcastBlockCrack(CrackStart(position));
        case ContinueBreak(position) =>
          if !breaking || breakingPos != position {
            if breaking {
              BroadcastBlockCrack(CrackStop(breakingPos));
            }
            breakingPos, breaking := position, true;
            BroadcastBlockCrack(CrackStart(position));
            return;
          }
          breakingPos, breaking := position, true;
          BroadcastBlockCrack(CrackUpdate(position));
        case AbortBreak(position) =>
          breaking := false;
          BroadcastBlockCrack(CrackStop(position));
        case FinishBreak(position) =>
          var broken := position;
          if breaking {
            broken := breakingPos;
          }
          breaking := false;
          BroadcastBlockCrack(CrackStop(broken));
          breaks := breaks + [broken];
        case OtherAction =>
      }
    }
  }

  // ----- runs

  function Run(actions: seq<BlockAction>): State {
    if actions == [] then IDLE
    else After(Run(actions[..|actions| - 1]), actions[|actions| - 1])
  }

  /** A crack on block p is under way after the events: started, and not stopped since. */
  predicate Open(cracks: seq<Crack>, p: Position) {
    exists i :: 0 <= i < |cracks| && cracks[i] == CrackStart(p)
                && forall j :: i < j < |cracks| ==> cracks[j] != CrackStop(p)
  }

  /** Every update concerns a crack that is under way. */
  predicate UpdatesAreOpen(cracks: seq<Crack>) {
    forall k :: 0 <= k < |cracks| && cracks[k].CrackUpdate? ==> Open(cracks[..k], cracks[k].at)
  }

  /** The block of the latest start. */
  function LastStarted(cracks: seq<Crack>): Option<Position> {
    if cracks == [] then None
    else match cracks[|cracks| - 1]
      case CrackStart(p) => Some(p)
      case _ => LastStarted(cracks[..|cracks| - 1])
  }

  lemma OpenAfter(cracks: seq<Crack>, c: Crack, p: Position)
    ensures Open(cracks + [c], p) <==> c == CrackStart(p) || (Open(cracks, p) && c != CrackStop(p))
  {
    var all := cracks + [c];
    if c == CrackStart(p) {
      assert all[|cracks|] == CrackStart(p);
    } else if Open(cracks, p) && c != CrackStop(p) {
      var i :| 0 <= i < |cracks| && cracks[i] == CrackStart(p)
               && forall j :: i < j < |cracks| ==> cracks[j] != CrackStop(p);
      assert all[i] == CrackStart(p);
    }
    if Open(all, p) && c != CrackStart(p) {
      var i :| 0 <= i < |all| && all[i] == CrackStart(p) && forall j :: i < j < |all| ==> all[j] != CrackStop(p);
      assert cracks[i] == CrackStart(p);
      assert all[|cracks|] == c;
      assert forall j :: i < j < |cracks| ==> cracks[j] == all[j];
    }
  }

  lemma LastStartedAfter(cracks: seq<Crack>, c: Crack)
    ensures LastStarted(cracks + [c]) == if c.CrackStart? then Some(c.at) else LastStarted(cracks)
  {
    assert (cracks + [c])[..|cracks|] == cracks;
  }

  lemma UpdatesAfter(cracks: seq<Crack>, c: Crack)
    requires UpdatesAreOpen(cracks) && (c.CrackUpdate? ==> Open(cracks, c.at))
    ensures UpdatesAreOpen(cracks + [c])
  {
    var all := cracks + [c];
    forall k | 0 <= k < |all| && all[k].CrackUpdate? ensures Open(all[..k], all[k].at) {
      if k < |cracks| {
        assert all[..k] == cracks[..k];
      } else {
        assert all[..k] == cracks;
      }
    }
  }

  predicate Consistent(s: State) {
    && UpdatesAreOpen(s.cracks)
    && (s.breaking ==> Open(s.cracks, s.target) && LastStarted(s.cracks) == Some(s.target))
  }

  lemma AnnounceFacts(s: State, c: Crack)
    requires UpdatesAreOpen(s.cracks) && (c.CrackUpdate? ==> Open(s.cracks, c.at))
    ensures UpdatesAreOpen(Announce(s, c).cracks)
    ensures forall p :: Open(Announce(s, c).cracks, p) <==> c == CrackStart(p) || (Open(s.cracks, p) && c != CrackStop(p))
    ensures LastStarted(Announce(s, c).cracks) == if c.CrackStart? then Some(c.at) else LastStarted(s.cracks)
  {
    UpdatesAfter(s.cracks, c);
    LastStartedAfter(s.cracks, c);
    forall p ensures Open(s.cracks + [c], p) <==> c == CrackStart(p) || (Open(s.cracks, p) && c != CrackStop(p)) {
      OpenAfter(s.cracks, c, p);
    }
  }

  /** Which cracks are under way after an action. */
  lemma OverlayAfter(s: State, a: BlockAction)
    requires Consistent(s)
    ensures a.StartBreak? || a.ContinueBreak? ==> Open(After(s, a).cracks, a.at)
    ensures a.AbortBreak? ==> !Open(After(s, a).cracks, a.at)
    ensures a.FinishBreak? ==> !Open(After(s, a).cracks, if s.breaking then s.target else a.at)
  {
    ActionKeepsConsistent(s, a);
    match a
    case StartBreak(p) => OpenAfter(s.cracks, CrackStart(p), p);
    case ContinueBreak(p) =>
    case AbortBreak(p) => OpenAfter(s.cracks, CrackStop(p), p);
    case FinishBreak(p) =>
      var broken := if s.breaking then s.target else p;
      OpenAfter(s.cracks, CrackStop(broken), broken);
    case OtherAction =>
  }

  lemma ActionKeepsConsistent(s: State, a: BlockAction)
    requires Consistent(s)
    ensures Consistent(After(s, a))
  {
    match a
    case StartBreak(p) => AnnounceFacts(s, CrackStart(p));
    case ContinueBreak(p) =>
      if s.breaking && s.target == p {
        AnnounceFacts(s, CrackUpdate(p));
      } else {
        if s.breaking { AnnounceFacts(s, CrackStop(s.target)); }
        AnnounceFacts(if s.breaking then Announce(s, CrackStop(s.target)) else s, CrackStart(p));
      }
    case AbortBreak(p) => AnnounceFacts(s, CrackStop(p));
    case FinishBreak(p) => AnnounceFacts(s, CrackStop(if s.breaking then s.target else p));
    case OtherAction =>
  }

  /** In every run each update follows a start of its block with no stop of it in between, and
      finishing while breaking stops and posts exactly the block last started. */
  lemma {:induction false} CracksAreConsistent(actions: seq<BlockAction>, p: Position)
    ensures Consistent(Run(actions))
    ensures var s := Run(actions);
            s.breaking ==>
              && LastStarted(s.cracks) == Some(s.target)
              && After(s, FinishBreak(p)).breaks == s.breaks + [s.target]
              && After(s, FinishBreak(p)).cracks == s.cracks + [CrackStop(s.target)]
  {
    if actions != [] {
      CracksAreConsistent(actions[..|actions| - 1], p);
      ActionKeepsConsistent(Run(actions[..|actions| - 1]), actions[|actions| - 1]);
    }
  }

  // ----- when an overlay is left behind

  /** Only the block being broken has a crack under way. */
  ghost predicate Tidy(s: State) {
    forall p :: Open(s.cracks, p) <==> s.breaking && s.target == p
  }

  /** The action turns away from the block being broken without stopping its crack. */
  predicate Abandons(s: State, a: BlockAction) {
    s.breaking && (a.StartBreak? || a.AbortBreak?) && a.at != s.target
  }

  lemma TidyStart(s: State, p: Position)
    requires Consistent(s) && Tidy(s)
    ensures Tidy(After(s, StartBreak(p))) <==> !Abandons(s, StartBreak(p))
  {
    AnnounceFacts(s, CrackStart(p));
    if s.breaking && s.target != p {
      assert Open(s.cracks, s.target);
      assert Open(After(s, StartBreak(p)).cracks, s.target);
    }
  }

  lemma TidyContinue(s: State, p: Position)
    requires Consistent(s) && Tidy(s)
    ensures Tidy(After(s, ContinueBreak(p)))
  {
    if s.breaking && s.target == p {
      AnnounceFacts(s, CrackUpdate(p));
    } else {
      if s.breaking { AnnounceFacts(s, CrackStop(s.target)); }
      AnnounceFacts(if s.breaking then Announce(s, CrackStop(s.target)) else s, CrackStart(p));
    }
  }

  lemma TidyAbort(s: State, p: Position)
    requires Consistent(s) && Tidy(s)
    ensures Tidy(After(s, AbortBreak(p))) <==> !Abandons(s, AbortBreak(p))
  {
    AnnounceFacts(s, CrackStop(p));
    if s.breaking && s.target != p {
      assert Open(s.cracks, s.target);
      assert Open(After(s, AbortBreak(p)).cracks, s.target);
    }
  }

  /** An action keeps the overlays tidy if and only if it does not abandon the current block. */
  lemma TidyExactlyWithoutAbandoning(s: State, a: BlockAction)
    requires Consistent(s) && Tidy(s)
    ensures Tidy(After(s, a)) <==> !Abandons(s, a)
  {
    match a
    case StartBreak(p) => TidyStart(s, p);
    case ContinueBreak(p) => TidyContinue(s, p);
    case AbortBreak(p) => TidyAbort(s, p);
    case FinishBreak(p) => AnnounceFacts(s, CrackStop(if s.breaking then s.target else p));
    case OtherAction =>
  }

  /** No action of the run abandons the block being broken. */
  predicate NeverAbandons(actions: seq<BlockAction>) {
    actions != [] ==>
      var n := |actions| - 1;
      NeverAbandons(actions[..n]) && !Abandons(Run(actions[..n]), actions[n])
  }

  /** After every action of the run only the block being broken shows cracks. */
  ghost predicate AlwaysTidy(actions: seq<BlockAction>) {
    Tidy(Run(actions)) && (actions != [] ==> AlwaysTidy(actions[..|actions| - 1]))
  }

  /** The overlays stay tidy throughout a run if and only if no action abandons a block. */
  lemma {:induction false} AlwaysTidyExactly(actions: seq<BlockAction>)
    ensures AlwaysTidy(actions) <==> NeverAbandons(actions)
  {
    if actions != [] {
      var n := |actions| - 1;
      AlwaysTidyExactly(actions[..n]);
      CracksAreConsistent(actions[..n], ORIGIN);
      if Tidy(Run(actions[..n])) { TidyExactlyWithoutAbandoning(Run(actions[..n]), actions[n]); }
    }
  }

  /** Starting on a second block leaves the first one showing cracks. */
  lemma StartingElsewhereLeavesCracks(a: Position, b: Position)
    requires a != b
    ensures Open(Run([StartBreak(a), StartBreak(b)]).cracks, a) && !Tidy(Run([StartBreak(a), StartBreak(b)]))
  {
    var actions := [StartBreak(a), StartBreak(b)];
    assert actions[..1] == [StartBreak(a)] && actions[..1][..0] == [];
    assert Run(actions[..1]) == After(Run([]), actions[0]);
    var s := Run(actions);
    assert s.cracks == [CrackStart(a), CrackStart(b)] && s.target == b;
    assert s.cracks[0] == CrackStart(a);
    assert Open(s.cracks, a);
  }
}
