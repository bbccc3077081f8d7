/** Properties of the controller model that relate several handlers or a
    whole sequence of events. */
module ControllerProperties {
  import opened ControllerSpec

  /** Higher levels never give a slower gravity interval. */
  lemma PeriodMonotone(a: int, b: int)
    requires a <= b
    ensures Period(b) <= Period(a)
  {
  }

  /** A second startTimer neither starts another interval nor changes the
      period, whatever level it is given. */
  lemma StartTimerIdempotent(s: Ctl, level: int, level': int)
    ensures var t := StartTimer(s, level);
            StartTimer(t.next, level') == Out(t.next, [])
  {
  }

  /** A second stopTimer does nothing. */
  lemma StopTimerIdempotent(s: Ctl)
    ensures var t := StopTimer(s);
            StopTimer(t.next) == Out(t.next, [])
  {
  }

  /** Restarting after game over while an interval is live keeps that
      interval and its period, although the game has been reset and its level
      may have changed: the period is not recomputed, and the interval is
      neither cleared nor started again. */
  lemma ResetKeepsLivePeriod(s: Ctl, g: Reading)
    requires g.overBefore && s.timer.Some?
    ensures HandleKeyDown(s, ENTER, g) == HandleClick(s, "power", g)
            == Out(Ctl(true, s.timer), [Call(ResetGame), Render(ScreenFor(g.overAfter, true))])
  {
  }

  /** Pausing and resuming with Enter recomputes the period from the level the
      game has when play resumes. */
  lemma ResumeRecomputesPeriod(s: Ctl, g: Reading, g': Reading)
    requires s.playing && !g.overBefore && !g'.overBefore
    ensures var paused := HandleKeyDown(s, ENTER, g).next;
            paused == Ctl(false, None) &&
            HandleKeyDown(paused, ENTER, g').next == Ctl(true, Some(Period(g'.levelAfter)))
  {
  }

  /** Soft drop from the keyboard: pressing Down clears the live interval
      before the game moves the piece, and nothing starts a new one until Down
      is released, which starts one at the period of the level then. */
  lemma SoftDrop(s: Ctl, g: Reading, level: int)
    requires s.playing
    ensures var drop := HandleKeyDown(s, DOWN, g);
            drop.next == Ctl(true, None) &&
            drop.effects == (if s.timer.Some? then [ClearInterval] else [])
                            + [Call(MovePieceDown), Render(ScreenFor(g.overAfter, true))] &&
            HandleKeyUp(drop.next, DOWN, level)
              == Out(Ctl(true, Some(Period(level))), [SetInterval(Period(level))])
  {
  }

  /** The on-screen Down button, unlike the Down key, leaves the interval
      running: it neither clears nor restarts it. */
  lemma SoftDropButtonKeepsTimer(s: Ctl, g: Reading)
    requires s.playing && s.timer.Some?
    ensures HandleClick(s, "down", g) == Out(s, [Call(MovePieceDown), Render(ScreenFor(g.overAfter, true))])
    ensures HandleKeyDown(s, DOWN, g).next.timer.None?
  {
  }

  /** Enter then Down: playing, yet no interval is live. The invariant
      "an interval is live only while playing" has no converse. */
  lemma PlayingWithoutTimer(g: Reading)
    requires !g.overBefore
    ensures Run(Initial, [Input(KeyDown(ENTER), g), Input(KeyDown(DOWN), g)]).next == Ctl(true, None)
  {
    var ins := [Input(KeyDown(ENTER), g), Input(KeyDown(DOWN), g)];
    var started := Handle(Initial, KeyDown(ENTER), g).next;
    assert started == Ctl(true, Some(Period(g.levelAfter)));
    assert ins[1..] == [Input(KeyDown(DOWN), g)] && ins[1..][1..] == [];
    assert Run(started, ins[1..]).next == Handle(started, KeyDown(DOWN), g).next == Ctl(true, None);
  }

  /** The effects of n firings of the interval after the game is over: each
      moves the piece down and draws the game-over screen. */
  function OverTicks(n: nat): seq<Effect>
  {
    if n == 0 then [] else [Call(MovePieceDown), Render(OverScreen)] + OverTicks(n - 1)
  }

  /** The controller has no game-over state of its own: once the game is over
      while playing, the interval is never cleared, so it goes on firing, and
      each firing calls movePieceDown and draws the game-over screen again. */
  lemma {:induction false} GameOverKeepsTicking(s: Ctl, ins: seq<Input>)
    requires s.playing && s.timer.Some?
    requires forall i | 0 <= i < |ins| :: ins[i].event.Tick? && ins[i].reading.overAfter
    ensures Delivered(s, ins)
    ensures Run(s, ins) == Out(s, OverTicks(|ins|))
    decreases |ins|
  {
    if ins != [] {
      assert ins[0].event.Tick? && ins[0].reading.overAfter;
      assert Handle(s, Tick, ins[0].reading) == Out(s, [Call(MovePieceDown), Render(OverScreen)]);
      forall i | 0 <= i < |ins[1..]|
        ensures ins[1..][i].event.Tick? && ins[1..][i].reading.overAfter
      {
        assert ins[1..][i] == ins[i + 1];
      }
      GameOverKeepsTicking(s, ins[1..]);
    }
  }

  /** Events other than the Enter key and the power button. */
  predicate NotToggle(e: Event) {
    match e
    case KeyDown(code) => code != ENTER
    case Click(id) => id != "power"
    case _ => true
  }

  /** While the game is not being played, and so no interval is live, every
      sequence of events the browser can deliver that holds neither Enter nor
      a power click leaves the controller as it is, calls no game operation and
      draws nothing. Such a sequence holds no tick. */
  lemma {:induction false} IdleRunIgnored(s: Ctl, ins: seq<Input>)
    requires !s.playing && Inv(s)
    requires Delivered(s, ins)
    requires forall i | 0 <= i < |ins| :: NotToggle(ins[i].event)
    ensures Run(s, ins) == Out(s, [])
    ensures forall i | 0 <= i < |ins| :: !ins[i].event.Tick?
    decreases |ins|
  {
    if ins != [] {
      assert NotToggle(ins[0].event) && !ins[0].event.Tick?;
      IdleRunIgnored(s, ins[1..]);
      forall i | 0 <= i < |ins| ensures !ins[i].event.Tick? {
        if i > 0 { assert ins[i] == ins[1..][i - 1]; }
      }
    }
  }

  /** Events after which no new interval can have been started. */
  predicate NeverStarts(e: Event) {
    match e
    case KeyDown(code) => code != ENTER
    case KeyUp(code) => code != DOWN
    case Click(id) => id != "power"
    case Tick => true
  }

  /** Once no interval is live, none is started again until Down is released
      or Enter or the power button is used, and so no tick can arrive before. */
  lemma {:induction false} NoRestartWithoutTrigger(s: Ctl, ins: seq<Input>)
    requires s.timer.None?
    requires forall i | 0 <= i < |ins| :: NeverStarts(ins[i].event)
    ensures Run(s, ins).next.timer.None?
    ensures forall i | 0 <= i < |Run(s, ins).effects| :: !Run(s, ins).effects[i].SetInterval?
    ensures Delivered(s, ins) ==> forall i | 0 <= i < |ins| :: !ins[i].event.Tick?
    decreases |ins|
  {
    if ins != [] {
      var h := Handle(s, ins[0].event, ins[0].reading);
      assert NeverStarts(ins[0].event);
      assert h.next.timer.None? && forall i | 0 <= i < |h.effects| :: !h.effects[i].SetInterval? by {
        match ins[0].event
        case KeyDown(code) =>
          if s.playing && code == DOWN {
            assert h.effects == StopTimer(s).effects + Move(s.(timer := None), MovePieceDown, ins[0].reading.overAfter).effects;
          }
        case KeyUp(code) =>
        case Click(id) =>
        case Tick =>
      }
      NoRestartWithoutTrigger(h.next, ins[1..]);
      if Delivered(s, ins) {
        forall i | 0 <= i < |ins| ensures !ins[i].event.Tick? {
          if i > 0 { assert ins[i] == ins[1..][i - 1]; }
        }
      }
    }
  }

  /** From a freshly constructed controller, every run keeps the invariant,
      and its effects never start an interval while one is live nor clear one
      that is not, leaving live exactly the interval the controller holds. */
  lemma RunFromInitial(ins: seq<Input>)
    ensures Inv(Run(Initial, ins).next)
    ensures Replay(None, Run(Initial, ins).effects) == Some(Run(Initial, ins).next.timer)
  {
  }
}
