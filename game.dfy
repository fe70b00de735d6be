/** The main loop of Flappybird_Game/main.py: the screen state machine driven by input
    events, and the play frame that moves, culls and scores the pipes, tests collisions
    and ends the game. The loop's globals are the fields of one Game object. */
module FlappyGame {
  import opened PipeWorld
  import HighScores

  /** game_state: 'menu', 'records', 'play' or "Game_over". */
  datatype Screen = Menu | Records | Play | GameOver

  datatype Key = Space | Return | OtherKey

  /** The pygame events the loop reacts to; a mouse press carries the mouse position
      read when it is handled. */
  datatype Event = Quit | KeyDown(key: Key) | MouseDown(px: int, py: int) | SpawnPipe | OtherEvent

  /** What a frame did with the records file. */
  datatype SaveOutcome =
    | NotSaved
    | Saved(lines: seq<string>)
    | SaveFailed(error: HighScores.LoadError)

  const BUTTON_W: int := 200
  const BUTTON_H: int := 50
  const BUTTON_X: int := WIDTH / 2 - BUTTON_W / 2
  const BUTTON_Y: int := 215
  const START_BUTTON: Rect := Rect(BUTTON_X, BUTTON_Y, BUTTON_W, BUTTON_H)
  const LEVELS_BUTTON: Rect := Rect(BUTTON_X, BUTTON_Y + 15 + BUTTON_H, BUTTON_W, BUTTON_H)
  const RECORDS_BUTTON: Rect := Rect(BUTTON_X, BUTTON_Y + 30 + BUTTON_H * 2, BUTTON_W, BUTTON_H)
  const BACK_BUTTON: Rect := Rect(BUTTON_X, HEIGHT - 100, BUTTON_W, BUTTON_H)

  /** The bird's height at the start of a game. */
  const START_Y: int := HEIGHT / 2

  /** The name save_records is called with at game over. */
  const PLAYER_NAME: string := "player"

  predicate ClickedOn(e: Event, button: Rect) {
    e.MouseDown? && ContainsPoint(button, e.px, e.py)
  }

  /** What `save_records("player", score)` does with the records file at game over. */
  function GameOverSave(file: HighScores.Option<seq<string>>, score: int): SaveOutcome {
    match HighScores.SaveResult(file, PLAYER_NAME, score)
    case Success(lines) => Saved(lines)
    case Failure(error) => SaveFailed(error)
  }

  /** A save at game over writes at most five lines, and the file then reads back as the
      top five of the old table and the player's score; it fails only when the old file
      does not load. */
  lemma GameOverSaveSpec(file: HighScores.Option<seq<string>>, score: int)
    ensures GameOverSave(file, score).SaveFailed? <==> HighScores.LoadRecords(file).Failure?
    ensures GameOverSave(file, score).Saved? ==>
      var table := HighScores.TopFive(HighScores.LoadRecords(file).value, HighScores.Record(PLAYER_NAME, score));
      && |GameOverSave(file, score).lines| <= HighScores.MAX_RECORDS
      && HighScores.LoadRecords(HighScores.Some(GameOverSave(file, score).lines)) == HighScores.Success(table)
  {
    if HighScores.LoadRecords(file).Success? {
      HighScores.SaveThenLoad(file, PLAYER_NAME, score);
    }
  }

  /** The loop's state as one value. */
  datatype LoopState = LoopState(screen: Screen, score: nat, gameActive: bool, birdY: int,
                       birdSpeed: int, pipes: seq<Pipe>, exited: bool)

  /** The state right after Start is clicked. */
  const FRESH_GAME: LoopState := LoopState(Play, 0, true, START_Y, 0, [], false)

  class Game {
    /** pipe_width and pipe_height, the size of the pipe image. */
    const pipeWidth: int
    const pipeHeight: int

    var screen: Screen
    var score: nat
    var gameActive: bool
    /** The bird's vertical position, as the integer pygame.Rect makes of it. */
    var birdY: int
    var birdSpeed: int
    var pipes: seq<Pipe>
    /** The loop has ended: a Quit event, or save_records raised. */
    var exited: bool

    /** How many pipes the cull has removed during the current game. */
    ghost var culled: nat

    ghost predicate Valid()
      reads this
    {
      PipesValid() && (screen == Play && !exited ==> gameActive)
    }

    /** The pipe list is well formed, and every pipe of the game is scored exactly once:
        the culled ones and the flagged ones. */
    ghost predicate PipesValid()
      reads this`pipes, this`score, this`culled
    {
      && pipeWidth > PIPE_MARGIN && pipeHeight > PIPE_MARGIN
      && WellFormed(pipes, pipeWidth)
      && score == culled + CountPassed(pipes)
    }

    function State(): LoopState
      reads this
    {
      LoopState(screen, score, gameActive, birdY, birdSpeed, pipes, exited)
    }

    /** The globals' values before the loop starts. */
    constructor (pipeWidth: int, pipeHeight: int)
      requires pipeWidth > PIPE_MARGIN && pipeHeight > PIPE_MARGIN
      ensures Valid()
      ensures this.pipeWidth == pipeWidth && this.pipeHeight == pipeHeight
      ensures State() == LoopState(Menu, 0, true, START_Y, 0, [], false)
    {
      this.pipeWidth := pipeWidth;
      this.pipeHeight := pipeHeight;
      screen := Menu;
      score := 0;
      gameActive := true;
      birdY := START_Y;
      birdSpeed := 0;
      pipes := [];
      exited := false;
      culled := 0;
    }

    /** One pass of the event loop's body. */
    method HandleEvent(e: Event)
      requires Valid()
      modifies this
      ensures Valid()
      ensures old(exited) ==> State() == old(State())
      ensures !old(exited) && e.Quit? ==> State() == old(State()).(exited := true)
      // play: Space flaps, the pipe timer adds a pipe at the right edge, nothing else counts
      ensures !old(exited) && old(screen) == Play && e == KeyDown(Space) ==>
        State() == old(State()).(birdSpeed := FLAP_SPEED)
      ensures !old(exited) && old(screen) == Play && e.SpawnPipe? ==>
        |pipes| == |old(pipes)| + 1 && pipes[..|old(pipes)|] == old(pipes)
        && pipes[|old(pipes)|].x == WIDTH && !pipes[|old(pipes)|].passed
        && PIPE_Y_MIN <= pipes[|old(pipes)|].y <= PIPE_Y_MAX
        && State() == old(State()).(pipes := pipes)
      ensures !old(exited) && old(screen) == Play && !e.Quit? && e != KeyDown(Space) && !e.SpawnPipe? ==>
        State() == old(State())
      // menu: Start resets and plays, Records shows the table, Levels does nothing
      ensures !old(exited) && old(screen) == Menu && ClickedOn(e, START_BUTTON) ==>
        State() == FRESH_GAME
      ensures !old(exited) && old(screen) == Menu && !ClickedOn(e, START_BUTTON) && ClickedOn(e, RECORDS_BUTTON) ==>
        State() == old(State()).(screen := Records)
      ensures !old(exited) && old(screen) == Menu && !e.Quit? && !ClickedOn(e, START_BUTTON) && !ClickedOn(e, RECORDS_BUTTON) ==>
        State() == old(State())
      // records: only Back leaves; game over: only Return leaves
      ensures !old(exited) && old(screen) == Records && !e.Quit? ==>
        State() == if ClickedOn(e, BACK_BUTTON) then old(State()).(screen := Menu) else old(State())
      ensures !old(exited) && old(screen) == GameOver && !e.Quit? ==>
        State() == if e == KeyDown(Return) then old(State()).(screen := Menu) else old(State())
    {
      if exited {
        return;
      }
      if e.Quit? {
        exited := true;
      } else if screen == Play {
        PlayEvent(e);
      } else if screen == Menu {
        MenuEvent(e);
      } else if screen == Records {
        if ClickedOn(e, BACK_BUTTON) {
          screen := Menu;
        }
      } else if screen == GameOver {
        if e == KeyDown(Return) {
          screen := Menu;
        }
      }
    }

    /** The `game_state == 'play'` branch of the event dispatch. */
    method PlayEvent(e: Event)
      requires Valid() && screen == Play
      modifies this`birdSpeed, this`pipes
      ensures Valid()
      ensures e == KeyDown(Space) ==> birdSpeed == FLAP_SPEED && pipes == old(pipes)
      ensures e.SpawnPipe? ==>
        birdSpeed == old(birdSpeed)
        && |pipes| == |old(pipes)| + 1 && pipes[..|old(pipes)|] == old(pipes)
        && pipes[|old(pipes)|].x == WIDTH && !pipes[|old(pipes)|].passed
        && PIPE_Y_MIN <= pipes[|old(pipes)|].y <= PIPE_Y_MAX
      ensures e != KeyDown(Space) && !e.SpawnPipe? ==> birdSpeed == old(birdSpeed) && pipes == old(pipes)
    {
      if e == KeyDown(Space) {
        birdSpeed := FLAP_SPEED;
      }
      if e.SpawnPipe? {
        var y :| PIPE_Y_MIN <= y <= PIPE_Y_MAX;
        SpawnWellFormed(pipes, pipeWidth, y);
        CountPassedAppendUnpassed(pipes, Pipe(WIDTH, y, false));
        pipes := pipes + [Pipe(WIDTH, y, false)];
      }
    }

    /** The `game_state == 'menu'` branch: the three buttons, tested in order. */
    method MenuEvent(e: Event)
      requires Valid() && screen == Menu && !exited
      modifies this
      ensures Valid()
      ensures ClickedOn(e, START_BUTTON) ==> State() == FRESH_GAME
      ensures !ClickedOn(e, START_BUTTON) && ClickedOn(e, RECORDS_BUTTON) ==> State() == old(State()).(screen := Records)
      ensures !ClickedOn(e, START_BUTTON) && !ClickedOn(e, RECORDS_BUTTON) ==> State() == old(State())
    {
      if ClickedOn(e, START_BUTTON) {
        birdY := START_Y;
        birdSpeed := 0;
        pipes := [];
        score := 0;
        gameActive := true;
        screen := Play;
        culled := 0;
      } else if ClickedOn(e, LEVELS_BUTTON) {
      } else if ClickedOn(e, RECORDS_BUTTON) {
        screen := Records;
      }
    }

    /** The in-place loop `for pipe in pipes: pipe["x"] -= pipe_speed`. */
    method ScrollPipes()
      modifies this`pipes
      ensures pipes == Scrolled(old(pipes))
    {
      var i := 0;
      while i < |pipes|
        invariant 0 <= i <= |pipes| == |old(pipes)|
        invariant forall k :: 0 <= k < i ==> pipes[k] == ScrollOne(old(pipes)[k])
        invariant forall k :: i <= k < |pipes| ==> pipes[k] == old(pipes)[k]
      {
        pipes := pipes[i := pipes[i].(x := pipes[i].x - PIPE_SPEED)];
        i := i + 1;
      }
    }

    /** The loop that tests each pipe against the bird and counts the pipes behind it. */
    method CollideAndScore(bird: Rect)
      modifies this`pipes, this`score, this`gameActive
      ensures pipes == Marked(old(pipes), pipeWidth)
      ensures score == old(score) + NewlyPassed(old(pipes), pipeWidth)
      ensures gameActive == (old(gameActive) && !HitsAny(bird, old(pipes), pipeWidth, pipeHeight))
    {
      ghost var ps := pipes;
      var i := 0;
      while i < |pipes|
        invariant 0 <= i <= |pipes| == |ps|
        invariant forall k :: 0 <= k < i ==> pipes[k] == MarkOne(ps[k], pipeWidth)
        invariant forall k :: i <= k < |pipes| ==> pipes[k] == ps[k]
        invariant score == old(score) + NewlyPassed(ps[..i], pipeWidth)
        invariant gameActive == (old(gameActive) && !HitsAny(bird, ps[..i], pipeWidth, pipeHeight))
      {
        var p := pipes[i];
        assert ps[..i + 1][..i] == ps[..i];
        if Collide(bird, TopPipeRect(p, pipeWidth, pipeHeight)) || Collide(bird, BottomPipeRect(p, pipeWidth, pipeHeight)) {
          gameActive := false;
        }
        if p.x + pipeWidth < BIRD_X && !p.passed {
          score := score + 1;
          pipes := pipes[i := p.(passed := true)];
        }
        i := i + 1;
      }
      assert ps[..i] == ps;
    }

    /** The play branch of the loop body, run after the events of the iteration. The bird's
        new integer height y and the size of the current bird image are inputs; file holds
        the lines of the records file, or None when it does not exist. */
    method Frame(y: int, birdW: nat, birdH: nat, file: HighScores.Option<seq<string>>)
      returns (save: SaveOutcome)
      requires Valid()
      modifies this
      ensures Valid()
      ensures old(exited) || old(screen) != Play ==> State() == old(State()) && save == NotSaved
      ensures !old(exited) && old(screen) == Play ==>
        && birdY == y && birdSpeed == old(birdSpeed)
        && pipes == FrameStep(old(pipes), pipeWidth)
        && score == old(score) + NewlyPassed(Cull(Scrolled(old(pipes)), pipeWidth), pipeWidth)
      ensures !old(exited) && old(screen) == Play ==>
        gameActive == !Lost(y, birdW, birdH, Cull(Scrolled(old(pipes)), pipeWidth))
      ensures !old(exited) && old(screen) == Play && gameActive ==>
        screen == Play && !exited && save == NotSaved
      ensures !old(exited) && old(screen) == Play && !gameActive ==>
        save == GameOverSave(file, score)
        && screen == (if save.Saved? then GameOver else Play) && exited == save.SaveFailed?
      ensures score >= old(score)
    {
      if exited || screen != Play {
        return NotSaved;
      }
      save := PlayFrame(y, birdW, birdH, file);
    }

    /** Frame when the loop runs and the screen is 'play'. */
    method PlayFrame(y: int, birdW: nat, birdH: nat, file: HighScores.Option<seq<string>>)
      returns (save: SaveOutcome)
      requires Valid() && screen == Play && !exited
      modifies this`birdY, this`gameActive, this`pipes, this`score, this`culled, this`screen, this`exited
      ensures Valid()
      ensures
        && birdY == y && birdSpeed == old(birdSpeed)
        && pipes == FrameStep(old(pipes), pipeWidth)
        && score == old(score) + NewlyPassed(Cull(Scrolled(old(pipes)), pipeWidth), pipeWidth)
      ensures gameActive == !Lost(y, birdW, birdH, Cull(Scrolled(old(pipes)), pipeWidth))
      ensures gameActive ==>
        screen == Play && !exited && save == NotSaved
      ensures !gameActive ==>
        save == GameOverSave(file, score)
        && screen == (if save.Saved? then GameOver else Play) && exited == save.SaveFailed?
      ensures score >= old(score)
    {
      birdY := y;
      if birdY > HEIGHT {
        gameActive := false;
      }
      MovePipes(BirdRect(birdY, birdW, birdH));
      save := EndGame(file);
    }

    /** The frame ends the game: the bird fell below the screen or touches a kept pipe. */
    ghost predicate Lost(y: int, birdW: nat, birdH: nat, kept: seq<Pipe>)
      reads this
    {
      y > HEIGHT || HitsAny(BirdRect(y, birdW, birdH), kept, pipeWidth, pipeHeight)
    }

    /** Scroll, cull, then the collision and score loop, keeping the pipe bookkeeping. */
    method MovePipes(bird: Rect)
      requires PipesValid()
      modifies this`pipes, this`score, this`gameActive, this`culled
      ensures PipesValid()
      ensures pipes == FrameStep(old(pipes), pipeWidth)
      ensures score == old(score) + NewlyPassed(Cull(Scrolled(old(pipes)), pipeWidth), pipeWidth)
      ensures gameActive == (old(gameActive) && !HitsAny(bird, Cull(Scrolled(old(pipes)), pipeWidth), pipeWidth, pipeHeight))
    {
      ghost var before := pipes;
      ScrollPipes();
      pipes := Cull(pipes, pipeWidth);
      ghost var kept := pipes;
      CollideAndScore(bird);
      FrameStepWellFormed(before, pipeWidth);
      FrameStepCount(before, pipeWidth);
      culled := culled + (|before| - |kept|);
    }

    /** `if not game_active`: `save_records("player", score)`, then the Game_over screen.
        When loading the old table raises, the exception ends the loop before the screen
        changes. */
    method EndGame(file: HighScores.Option<seq<string>>) returns (save: SaveOutcome)
      requires PipesValid() && screen == Play && !exited
      modifies this`screen, this`exited
      ensures Valid()
      ensures gameActive ==> screen == Play && !exited && save == NotSaved
      ensures !gameActive ==>
        save == GameOverSave(file, score)
        && screen == (if save.Saved? then GameOver else Play) && exited == save.SaveFailed?
    {
      if gameActive {
        return NotSaved;
      }
      var written := HighScores.SaveRecords(file, PLAYER_NAME, score);
      if written.Failure? {
        exited := true;
        save := SaveFailed(written.error);
      } else {
        screen := GameOver;
        save := Saved(written.value);
      }
    }

    /** The drawing step of the 'records' screen, which reloads the table on every
        iteration: a records file that does not parse ends the loop there as well. */
    method ShowRecords(file: HighScores.Option<seq<string>>) returns (shown: seq<HighScores.Record>)
      requires Valid()
      modifies this`exited
      ensures Valid()
      ensures old(exited) || screen != Records ==> exited == old(exited) && shown == []
      ensures !old(exited) && screen == Records ==>
        var loaded := HighScores.LoadRecords(file);
        exited == loaded.Failure? && shown == (if loaded.Success? then loaded.value else [])
    {
      shown := [];
      if !exited && screen == Records {
        var loaded := HighScores.LoadRecords(file);
        if loaded.Failure? {
          exited := true;
        } else {
          shown := loaded.value;
        }
      }
    }

    /** One iteration of `while True`: the records screen's reload, every pending event in
        order, then the frame. */
    method Iterate(events: seq<Event>, y: int, birdW: nat, birdH: nat, file: HighScores.Option<seq<string>>)
      returns (shown: seq<HighScores.Record>, save: SaveOutcome)
      requires Valid()
      modifies this
      ensures Valid()
      ensures old(exited) ==> State() == old(State()) && shown == [] && save == NotSaved
      ensures old(score) > score ==> exists k :: 0 <= k < |events| && ClickedOn(events[k], START_BUTTON)
    {
      shown := ShowRecords(file);
      for i := 0 to |events|
        invariant Valid()
        invariant old(exited) ==> State() == old(State())
        invariant old(score) > score ==> exists k :: 0 <= k < i && ClickedOn(events[k], START_BUTTON)
      {
        HandleEvent(events[i]);
      }
      save := Frame(y, birdW, birdH, file);
    }
  }

  /** A pipe spawned unflagged adds nothing to the flagged count. */
  lemma CountPassedAppendUnpassed(ps: seq<Pipe>, p: Pipe)
    requires !p.passed
    ensures CountPassed(ps + [p]) == CountPassed(ps)
  {
    assert (ps + [p])[..|ps|] == ps;
  }
}
