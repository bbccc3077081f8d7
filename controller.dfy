/** The controller of docs/js/controller.js as an object whose methods update
    its fields in place, each proved to do what the matching function of
    ControllerSpec says. */
module ControllerObject {
  import opened ControllerSpec

  /** The game engine (docs/js/game.js is not part of this model). The
      controller reads the game-over flag and the level from it, and calls five
      operations whose effect on the game is left unconstrained: `modifies this`
      with no postcondition, so a caller may assume nothing about the game's
      state afterwards. */
  class Game {
    var isGameOver: bool
    var level: int

    method MovePieceLeft() modifies this { }
    method MovePieceRight() modifies this { }
    method MovePieceDown() modifies this { }
    method RotatePiece() modifies this { }
    method Reset() modifies this { }
  }

  class Controller {
    const game: Game
    var isPlaying: bool
    /** The live interval, as its period; None stands for a null intervalId. */
    var intervalId: Option<int>
    /** What the controller has done to the world so far, in order: game
        operations called, screens drawn, intervals started and cleared. */
    ghost var log: seq<Effect>

    function State(): Ctl
      reads this
    {
      Ctl(isPlaying, intervalId)
    }

    /** The object invariant: an interval is live only while playing, and the
        intervals the log has started and cleared pair up, leaving exactly the
        one in intervalId live. */
    ghost predicate Valid()
      reads this
    {
      Inv(State()) && Replay(None, log) == Some(intervalId)
    }

    constructor (game: Game)
      ensures this.game == game
      ensures State() == Initial
      ensures log == [Render(StartScreen)]
      ensures Valid()
    {
      this.game := game;
      intervalId := None;
      isPlaying := false;
      log := [Render(StartScreen)];
      new;
      assert log[1..] == [];
    }

    /** Calls one game operation and records the call. */
    method Invoke(op: GameOp)
      modifies this`log, game
      ensures log == old(log) + [Call(op)]
    {
      log := log + [Call(op)];
      match op
      case MovePieceLeft => game.MovePieceLeft();
      case MovePieceRight => game.MovePieceRight();
      case MovePieceDown => game.MovePieceDown();
      case RotatePiece => game.RotatePiece();
      case ResetGame => game.Reset();
    }

    /** update: one gravity step, then a screen update. */
    method Update()
      requires Valid()
      modifies this`log, game
      ensures Valid()
      ensures var r := ControllerSpec.Update(old(State()), game.isGameOver);
              State() == r.next && log == old(log) + r.effects
    {
      Invoke(MovePieceDown);
      var shown := UpdateView();
      ghost var r := ControllerSpec.Update(old(State()), game.isGameOver);
      assert log == old(log) + r.effects;
      ReplayAppend(None, old(log), r.effects);
    }

    /** updateView: draws the screen the game and the controller call for. */
    method UpdateView() returns (screen: Screen)
      modifies this`log
      ensures screen == ScreenFor(game.isGameOver, isPlaying)
      ensures log == old(log) + [Render(screen)]
    {
      if game.isGameOver {
        screen := OverScreen;
      } else if !isPlaying {
        screen := PauseScreen;
      } else {
        screen := MainScreen;
      }
      log := log + [Render(screen)];
    }

    method Play()
      modifies this`isPlaying, this`intervalId, this`log
      ensures var r := ControllerSpec.Play(old(State()), game.level, game.isGameOver);
              State() == r.next && log == old(log) + r.effects
    {
      isPlaying := true;
      StartTimer();
      var shown := UpdateView();
    }

    method Pause()
      modifies this`isPlaying, this`intervalId, this`log
      ensures var r := ControllerSpec.Pause(old(State()), game.isGameOver);
              State() == r.next && log == old(log) + r.effects
    {
      isPlaying := false;
      StopTimer();
      var shown := UpdateView();
    }

    method Reset()
      modifies this`isPlaying, this`intervalId, this`log, game
      ensures var r := ControllerSpec.Reset(old(State()), game.level, game.isGameOver);
              State() == r.next && log == old(log) + r.effects
    {
      Invoke(ResetGame);
      Play();
    }

    method StartTimer()
      modifies this`intervalId, this`log
      ensures var r := ControllerSpec.StartTimer(old(State()), game.level);
              State() == r.next && log == old(log) + r.effects
    {
      var speed := 1000 - game.level * 100;
      if intervalId.None? {
        var period := if speed > 0 then speed else 100;
        intervalId := Some(period);
        log := log + [SetInterval(period)];
      }
    }

    method StopTimer()
      modifies this`intervalId, this`log
      ensures var r := ControllerSpec.StopTimer(old(State()));
              State() == r.next && log == old(log) + r.effects
    {
      if intervalId.Some? {
        log := log + [ClearInterval];
        intervalId := None;
      }
    }

    /** One game operation, then a screen update. */
    method Move(op: GameOp)
      modifies this`log, game
      ensures var r := ControllerSpec.Move(old(State()), op, game.isGameOver);
              State() == r.next && log == old(log) + r.effects
    {
      Invoke(op);
      var shown := UpdateView();
    }

    /** The branch Enter and the power button share, judged by the game-over
        flag read before the event. */
    method Toggle(over: bool)
      requires over == game.isGameOver
      modifies this`isPlaying, this`intervalId, this`log, game
      ensures var r := ControllerSpec.Toggle(old(State()), Reading(over, game.isGameOver, game.level));
              State() == r.next && log == old(log) + r.effects
    {
      if over {
        Reset();
      } else if isPlaying {
        Pause();
      } else {
        Play();
      }
    }

    method HandleKeyDown(code: int)
      requires Valid()
      modifies this`isPlaying, this`intervalId, this`log, game
      ensures Valid()
      ensures var r := ControllerSpec.HandleKeyDown(old(State()), code,
                         Reading(old(game.isGameOver), game.isGameOver, game.level));
              State() == r.next && log == old(log) + r.effects
    {
      var over := game.isGameOver;
      if !isPlaying && code != ENTER {
        return;
      }
      if code == ENTER {
        Toggle(over);
      } else if code == LEFT {
        Move(MovePieceLeft);
      } else if code == UP {
        Move(RotatePiece);
      } else if code == RIGHT {
        Move(MovePieceRight);
      } else if code == DOWN {
        StopTimer();
        Move(MovePieceDown);
      }
      ghost var r := ControllerSpec.HandleKeyDown(old(State()), code,
                         Reading(old(game.isGameOver), game.isGameOver, game.level));
      assert log == old(log) + r.effects;
      ReplayAppend(None, old(log), r.effects);
    }

    method HandleKeyUp(code: int)
      requires Valid()
      modifies this`intervalId, this`log
      ensures Valid()
      ensures var r := ControllerSpec.HandleKeyUp(old(State()), code, game.level);
              State() == r.next && log == old(log) + r.effects
    {
      if !isPlaying {
        return;
      }
      if code == DOWN {
        StartTimer();
      }
      ghost var r := ControllerSpec.HandleKeyUp(old(State()), code, game.level);
      assert log == old(log) + r.effects;
      ReplayAppend(None, old(log), r.effects);
    }

    method HandleClick(id: string)
      requires Valid()
      modifies this`isPlaying, this`intervalId, this`log, game
      ensures Valid()
      ensures var r := ControllerSpec.HandleClick(old(State()), id,
                         Reading(old(game.isGameOver), game.isGameOver, game.level));
              State() == r.next && log == old(log) + r.effects
    {
      var over := game.isGameOver;
      if id == "left" {
        if isPlaying {
          Move(MovePieceLeft);
        }
      } else if id == "up" {
        if isPlaying {
          Move(RotatePiece);
        }
      } else if id == "right" {
        if isPlaying {
          Move(MovePieceRight);
        }
      } else if id == "down" {
        if isPlaying {
          Move(MovePieceDown);
        }
      } else if id == "power" {
        Toggle(over);
      }
      ghost var r := ControllerSpec.HandleClick(old(State()), id,
                         Reading(old(game.isGameOver), game.isGameOver, game.level));
      assert log == old(log) + r.effects;
      ReplayAppend(None, old(log), r.effects);
    }
  }
}
