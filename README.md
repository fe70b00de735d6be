# Flappy bird: high scores, pipe world and screens

This project models the game logic of `Flappybird_Game/main.py`, a pygame Flappy Bird
clone, and proves properties of that model. The logic is written inline in one global
`while True` loop plus two helpers. The model splits it into three modules:

- `HighScores` (`records.dfy`) models the high-score table of `load_records` and
  `save_records`.
  - The records file is the sequence of its lines, or `None` when the file does not exist.
  - Each line is read with `str.strip()` over Python's whitespace set, then `split(',')`,
    a two-field unpack and `int()`. `int()` trims a smaller set: the separators
    U+001C to U+001F count as whitespace for `strip()` but not for `int()`.
  - `save_records` appends the new record, stable-sorts by descending score, keeps the
    first five and writes `name,score\n` lines.
  - A line that does not parse makes `load_records` raise. The model reports this as a
    `LoadError` that names the first bad line and why it failed.
  - `SaveRecords` builds the new table and calls `WriteRecords`, which holds the writing
    loop. `SaveResult` is the function that specifies `SaveRecords`, built from `TopFive`,
    `LoadRecords` and `SerializeRecords`.
- `PipeWorld` (`pipes.dfy`) holds the screen constants and the pipe records.
  - It defines the shrunken collision rectangles and the rectangle tests `collidepoint`
    and `colliderect`.
  - It states the three per-frame passes over the pipe list as functions on values:
    scroll by 10, cull the pipes that left the screen, and score the pipes that passed the
    bird.
  - Its lemmas show that the passes keep the pipe list ordered and consistent. They also
    show that every pipe is scored exactly once before it is culled.
- `FlappyGame` (`game.dfy`) holds a class `Game` whose fields are the loop's globals:
  `game_state`, `score`, `game_active`, `bird_y`, `bird_speed`, `pipes`, and whether the
  loop has ended.
  - `HandleEvent` is one pass of the event loop. `Frame` is the play step after the events.
  - `ShowRecords` is the reload done by the records screen. `Iterate` is one whole
    iteration of `while True`.
  - The invariant `Valid()` says six things:
    - both pipe image sizes are greater than 5, so the collision boxes have area;
    - the pipe list is ordered by `x`;
    - no pipe is right of `x = WIDTH`, where pipes are spawned;
    - a pipe is flagged `passed` exactly when it is behind the bird;
    - on the play screen, while the loop runs, `game_active` holds: a frame that clears
      it saves and leaves the play screen. `Frame` relies on this to say that the game is
      lost exactly on `Lost`;
    - `score` is the number of pipes culled during this game plus the number of flagged
      pipes. So each pipe adds one point, once, when it passes the bird, and every culled
      pipe had already added its point.

These things are inputs of the model:
- the bird's integer height for the frame;
- the size of the current bird image;
- the pipe image size, `pipe_width` and `pipe_height`, both greater than 5;
- the lines of the records file;
- the pending events.

`random.randint` is a nondeterministic choice within its bounds.

## Model

| member | source | states |
|---|---|---|
| `HighScores.Strip` | Flappybird_Game/main.py:21 | Definition: `line.strip()`, `StripLeft` then `StripRight` over `str.isspace()`'s set; `StripLine` and `NoLeadingSpace`/`NoTrailingSpace` state what it removes. |
| `HighScores.IntStrip` | Flappybird_Game/main.py:22 | Definition: the trimming `int()` does, over the smaller set without U+001C to U+001F; `IntRejectsSeparator` shows the difference from `Strip`. |
| `HighScores.StripLeft` | Flappybird_Game/main.py:21 | For a given whitespace set (`str.strip()`'s or `int()`'s), the result is a suffix of the line, everything dropped is in the set, and the result does not start with a character of the set. |
| `HighScores.StripRight` | Flappybird_Game/main.py:21 | For a given whitespace set, the result is a prefix of the line, everything dropped is in the set, and the result does not end with a character of the set. |
| `HighScores.Split` | Flappybird_Game/main.py:21 | `split(',')` gives one more field than there are commas; no field contains a comma; joining the fields with commas gives back the string. |
| `HighScores.SplitTwo` | Flappybird_Game/main.py:21-22 | `a,b` splits into exactly `[a, b]` when neither part has a comma. |
| `HighScores.DigitChar` | Flappybird_Game/main.py:31 | The character written for a digit is a decimal digit whose value is that digit. |
| `HighScores.ParseInt` | Flappybird_Game/main.py:22 | Definition: `int(text)`, an optional sign, then digits with single underscores between them, inside `int()` whitespace, or `None` where `int()` raises; `IntRoundTrip` and `IntRejectsSeparator` state its properties. |
| `HighScores.NatToString` | Flappybird_Game/main.py:31 | `str(n)` of a non-negative score is a nonempty run of decimal digits. |
| `HighScores.NatToStringValue` | Flappybird_Game/main.py:31 | The digits written for `n` have the value `n`. |
| `HighScores.IntToString` | Flappybird_Game/main.py:31 | Definition: `str(score)`, a minus sign for a negative score, then the digits; `IntRoundTrip` and `IntToStringShape` state its properties. |
| `HighScores.IntRoundTrip` | Flappybird_Game/main.py:22 | `int(str(n)) == n` for every integer score, negative ones included. |
| `HighScores.IntToStringShape` | Flappybird_Game/main.py:31 | `str(score)` is nonempty, has no comma, does not start with whitespace and ends with a digit. |
| `HighScores.FormatRecord` | Flappybird_Game/main.py:31 | Definition: the line `f"{name},{score}\n"`; `LineRoundTrip` reads it back. |
| `HighScores.ParseLine` | Flappybird_Game/main.py:21-22 | Definition: one line stripped, split on commas, unpacked into two fields and the second converted by `int()`, with the reason when it raises; `ParseLineFields`, `LineRoundTrip` and `SeparatorInScore` state its properties. |
| `HighScores.ParseLineFields` | Flappybird_Game/main.py:21-22 | The unpack fails exactly when the stripped line does not have exactly one comma, and then reports commas + 1 fields. On success the stripped line is `name,text` and the score is `int(text)`. |
| `HighScores.LineRoundTrip` | Flappybird_Game/main.py:21-31 | Reading back a line written as `f"{name},{score}\n"` gives the same record, for a name with no comma and no leading whitespace. |
| `HighScores.IntRejectsSeparator` | Flappybird_Game/main.py:22 | `int()` refuses a score field that starts with one of U+001C to U+001F and ends in a digit: `int()` does not trim those characters. |
| `HighScores.SeparatorInScore` | Flappybird_Game/main.py:21-22 | Such a score field passes `strip()` and `split(',')`, and then the line fails as a bad score, which makes `load_records` raise. |
| `HighScores.StripLine` | Flappybird_Game/main.py:21 | Stripping a written line removes exactly the newline. |
| `HighScores.ParsedNameValid` | Flappybird_Game/main.py:21-22 | A name read from a file has no comma and no leading whitespace, so it can be written back unchanged. |
| `HighScores.SplitNoComma` | Flappybird_Game/main.py:21 | A string without a comma splits into itself alone. |
| `HighScores.ParseAll` | Flappybird_Game/main.py:21-22 | There is one parse result per line of the file. |
| `HighScores.Collect` | Flappybird_Game/main.py:21-22 | Definition: the records of the per-line results, or the first line that raises; `CollectSpec` states it. |
| `HighScores.ParseRecords` | Flappybird_Game/main.py:21-22 | Definition: both comprehensions, `Collect` of `ParseAll`. |
| `HighScores.LoadRecords` | Flappybird_Game/main.py:18-23 | Definition: `load_records()`, with a missing file read as the empty table; `CollectSpec`, `RecordsRoundTrip` and `LoadedNamesValid` state its properties. |
| `HighScores.SerializeRecords` | Flappybird_Game/main.py:29-31 | Definition: one `FormatRecord` line per record, in table order; `WriteRecords` is proved equal to it and `RecordsRoundTrip` loads it back. |
| `HighScores.CollectSpec` | Flappybird_Game/main.py:21-22 | Loading succeeds exactly when every line parses, and then the records are the lines' records in file order. Otherwise the error names the first failing line and its reason. |
| `HighScores.RecordsRoundTrip` | Flappybird_Game/main.py:18-31 | Loading the lines written for a table gives back the same table, when no name has a comma or leading whitespace. |
| `HighScores.LoadedNamesValid` | Flappybird_Game/main.py:18-22 | Every name in a loaded table can be written back unchanged. |
| `HighScores.InsertAfterTies` | Flappybird_Game/main.py:27 | Inserting one record adds exactly one element. |
| `HighScores.InsertAfterTiesPerm` | Flappybird_Game/main.py:27 | Inserting adds exactly that record to the multiset of records. |
| `HighScores.InsertAfterTiesSorted` | Flappybird_Game/main.py:27 | Inserting into a descending table keeps it descending. |
| `HighScores.SortDesc` | Flappybird_Game/main.py:27 | The sort keeps the number of records. |
| `HighScores.SortDescSorted` | Flappybird_Game/main.py:27 | The sort yields a non-increasing score order. |
| `HighScores.SortDescPerm` | Flappybird_Game/main.py:27 | The sort is a permutation: it keeps the multiset of records. |
| `HighScores.SortDescSpec` | Flappybird_Game/main.py:27 | The sort is a permutation into non-increasing score order. |
| `HighScores.WithScoreAppend` | Flappybird_Game/main.py:27 | The records with a given score are split the same way as the list they come from. |
| `HighScores.InsertAfterTiesStable` | Flappybird_Game/main.py:26-27 | A record inserted into a sorted table lands after its ties, exactly as if it had been appended. |
| `HighScores.SortDescStable` | Flappybird_Game/main.py:27 | Stability: for every score, the sorted records with that score are in the input order. |
| `HighScores.StableSortUnique` | Flappybird_Game/main.py:27 | Any descending order that keeps ties in input order is `SortDesc`. So `list.sort(key=score, reverse=True)` computes exactly `SortDesc`. |
| `HighScores.SameTiesSameOrder` | Flappybird_Game/main.py:27 | Two descending lists with the same records of every score, in the same order, are equal. |
| `HighScores.CountAtLeast` | Flappybird_Game/main.py:27 | The number of records reaching a score is at most the table's size. |
| `HighScores.InsertAfterTiesPlace` | Flappybird_Game/main.py:26-27 | In a sorted table, the new record goes right after the records that score at least as much. |
| `HighScores.CountAtLeastPrefix` | Flappybird_Game/main.py:27 | In a sorted table, the records reaching a score form a prefix. |
| `HighScores.CountAtLeastSort` | Flappybird_Game/main.py:27 | Sorting does not change how many records reach a score. |
| `HighScores.TopFive` | Flappybird_Game/main.py:25-28 | The new table has min(5, old size + 1) records, so never more than five. |
| `HighScores.TopFiveSpec` | Flappybird_Game/main.py:25-28 | The new table is non-increasing and its records are drawn from the old table plus the new record. It is the start of the sorted list, and every kept score is at least every dropped score. |
| `HighScores.NewRecordPlacement` | Flappybird_Game/main.py:25-28 | The new record is kept exactly when fewer than five old records score at least as much, and then sits right after them. Otherwise the old top five are kept, so an equal score never displaces an older one. |
| `HighScores.TopFiveDrawnFrom` | Flappybird_Game/main.py:25-28 | Every kept record is an old record or the new one. |
| `HighScores.SaveResult` | Flappybird_Game/main.py:24-31 | Definition: what `save_records(name, score)` leaves in the file, the `SerializeRecords` of `TopFive`, or the load error when the old file does not load; `SaveRecords` is proved to compute it and `SaveThenLoad` loads it back. |
| `HighScores.SaveRecords` | Flappybird_Game/main.py:24-31 | Writes exactly `SaveResult`. It succeeds exactly when the old file loads, and then it writes at most five lines. |
| `HighScores.WriteRecords` | Flappybird_Game/main.py:29-31 | The writing loop writes one `name,score\n` line per record, in table order. |
| `HighScores.SaveThenLoad` | Flappybird_Game/main.py:18-31 | With a valid name and a file that loads, `SaveResult` succeeds, and loading what it wrote gives back the new top five. |
| `PipeWorld.ContainsPoint` | Flappybird_Game/main.py:116-130 | Definition: `Rect.collidepoint`, the point lies in the half-open box; the button tests of the menu and records screens use it. |
| `PipeWorld.Collide` | Flappybird_Game/main.py:159 | Definition: `Rect.colliderect` for rectangles of non-negative size; `CollideIffSharedPixel` states it. |
| `PipeWorld.CollideIffSharedPixel` | Flappybird_Game/main.py:159 | `colliderect` as modelled holds exactly when the two rectangles share a pixel by `collidepoint`. |
| `PipeWorld.BirdRect` | Flappybird_Game/main.py:149 | Definition: `pygame.Rect(bird_x, bird_y, w, h)` with the current image size. |
| `PipeWorld.TopPipeRect` | Flappybird_Game/main.py:157 | Definition: the upper pipe's collision box, 5 pixels narrower and shorter than the image; `InsideGapIsSafe` uses it. |
| `PipeWorld.BottomPipeRect` | Flappybird_Game/main.py:158 | Definition: the lower pipe's collision box, starting at the bottom of the gap; `InsideGapIsSafe` uses it. |
| `PipeWorld.HitsPipe` | Flappybird_Game/main.py:159 | Definition: the bird touches the top or the bottom rectangle of one pipe; `InsideGapIsSafe` states when it cannot. |
| `PipeWorld.HitsAny` | Flappybird_Game/main.py:153-160 | Definition: some kept pipe is hit; `HitsAnyIffSome` states it. |
| `PipeWorld.InsideGapIsSafe` | Flappybird_Game/main.py:157-160 | A bird whose box lies in the gap, allowing for the 5-pixel margin, touches neither pipe of the pair. |
| `PipeWorld.HitsAnyIffSome` | Flappybird_Game/main.py:153-160 | The collision loop's test holds exactly when the bird touches the top or bottom rectangle of some pipe. |
| `PipeWorld.ScrollOne` | Flappybird_Game/main.py:151 | Definition: `pipe["x"] -= pipe_speed` for one pipe. |
| `PipeWorld.Scrolled` | Flappybird_Game/main.py:150-151 | Scrolling keeps the number of pipes. |
| `PipeWorld.OnScreen` | Flappybird_Game/main.py:152 | Definition: the comprehension's test `pipe["x"] + pipe_width > 0`. |
| `PipeWorld.Cull` | Flappybird_Game/main.py:152 | The cull keeps at most the pipes it is given, and every kept pipe is still on screen. |
| `PipeWorld.CullKeepsExactlyOnScreen` | Flappybird_Game/main.py:152 | A pipe is kept exactly when it was in the list and `x + pipe_width > 0`. |
| `PipeWorld.CullDropsPrefix` | Flappybird_Game/main.py:152 | On an x-ordered list the cull removes a prefix, exactly the off-screen pipes, and keeps the rest in order. |
| `PipeWorld.CullAllOffScreen` | Flappybird_Game/main.py:152 | A list of off-screen pipes is culled away entirely. |
| `PipeWorld.Passing` | Flappybird_Game/main.py:161 | Definition: the test `pipe["x"] + pipe_width < bird_x and not pipe["passed"]`. |
| `PipeWorld.MarkOne` | Flappybird_Game/main.py:161-163 | Definition: one pipe after the scoring test, flagged when it is passing. |
| `PipeWorld.Marked` | Flappybird_Game/main.py:161-163 | Scoring keeps the number of pipes. |
| `PipeWorld.NewlyPassed` | Flappybird_Game/main.py:161-162 | Definition: the points one scoring pass adds; `NewlyPassedBound`, `MarkedCount` and `MarkedNothingNew` state its properties. |
| `PipeWorld.NewlyPassedBound` | Flappybird_Game/main.py:161-163 | The points a frame adds plus the pipes already flagged never exceed the number of pipes: each pipe adds at most one point. |
| `PipeWorld.MarkedCount` | Flappybird_Game/main.py:161-163 | After the loop, the flagged pipes are the old flagged ones plus the ones this frame scored. |
| `PipeWorld.MarkedNothingNew` | Flappybird_Game/main.py:161-163 | A second scoring pass on the same positions adds nothing: no pipe scores twice. |
| `PipeWorld.CountPassedScrolled` | Flappybird_Game/main.py:150-151 | Scrolling does not change the flags. |
| `PipeWorld.CullRemovesScored` | Flappybird_Game/main.py:152 | When every off-screen pipe is flagged, the cull removes exactly that many flagged pipes. |
| `PipeWorld.CulledWereScored` | Flappybird_Game/main.py:150-163 | Because a pipe moves 10 pixels a frame and the bird sits at x = 50, every pipe a frame culls was scored in an earlier frame. |
| `PipeWorld.ScrolledShape` | Flappybird_Game/main.py:150-151 | After the scroll, the list is still x-ordered and each flag matches the pipe's position before the move. |
| `PipeWorld.SuffixShape` | Flappybird_Game/main.py:152 | What the cull keeps has the same shape. |
| `PipeWorld.MarkedShape` | Flappybird_Game/main.py:161-163 | The scoring pass restores "flagged exactly when behind the bird". |
| `PipeWorld.FrameStep` | Flappybird_Game/main.py:150-163 | Definition: the frame's three passes in order, scroll, cull, then score; `FrameStepWellFormed` and `FrameStepCount` state its properties. |
| `PipeWorld.FrameStepWellFormed` | Flappybird_Game/main.py:150-163 | A frame keeps the pipe list x-ordered, never right of the spawn edge, and flagged exactly when behind the bird. |
| `PipeWorld.FrameStepCount` | Flappybird_Game/main.py:150-163 | Flags after the frame plus pipes culled equal flags before plus the points scored. |
| `PipeWorld.SpawnWellFormed` | Flappybird_Game/main.py:109-111 | Appending a new unflagged pipe at `x = WIDTH` keeps the list well formed. |
| `FlappyGame.ClickedOn` | Flappybird_Game/main.py:113-130 | Definition: a mouse press whose position is inside the button, by `collidepoint`; `HandleEvent` and `MenuEvent` state the dispatch on it. |
| `FlappyGame.GameOverSave` | Flappybird_Game/main.py:169-170 | Definition: `save_records("player", score)`, `SaveResult` for the name `player`; `GameOverSaveSpec` states its properties. |
| `FlappyGame.GameOverSaveSpec` | Flappybird_Game/main.py:169-170 | The save at game over fails exactly when the old file does not load. Otherwise it writes at most five lines, which read back as the top five of the old table and the player's score. |
| `FlappyGame.CountPassedAppendUnpassed` | Flappybird_Game/main.py:109-111 | A spawned pipe adds no flagged pipe. |
| `FlappyGame.Game.constructor` | Flappybird_Game/main.py:49-70 | The globals before the loop: the menu screen, score 0, `game_active`, `bird_y = HEIGHT // 2`, speed 0, no pipes. |
| `FlappyGame.Game.HandleEvent` | Flappybird_Game/main.py:101-135 | QUIT ends the loop. In play: Space sets the speed to exactly -6; the pipe timer appends one unflagged pipe at `x = WIDTH` with its gap in [100, 375]; nothing else changes. In the menu: Start resets and plays, Records opens the records screen, and Levels or any other event does nothing. Records goes back to the menu only on Back, and Game_over only on Return. `Valid()` is preserved. |
| `FlappyGame.Game.PlayEvent` | Flappybird_Game/main.py:105-111 | The play branch of the dispatch: flap or spawn, and nothing else. `Valid()` is preserved. |
| `FlappyGame.Game.MenuEvent` | Flappybird_Game/main.py:112-126 | The three buttons in their order: Start gives exactly the fresh game state, Records switches the screen, and anything else changes nothing. |
| `FlappyGame.Game.ScrollPipes` | Flappybird_Game/main.py:150-151 | The in-place loop leaves the scrolled list. |
| `FlappyGame.Game.CollideAndScore` | Flappybird_Game/main.py:153-163 | The loop flags the passed pipes and adds one point for each newly passed pipe. `game_active` is cleared exactly when the bird touches some pipe. |
| `FlappyGame.Game.MovePipes` | Flappybird_Game/main.py:147-163 | Scroll, cull, then score and collide. Afterwards the list is well formed and the score still counts every pipe of the game once. |
| `FlappyGame.Game.EndGame` | Flappybird_Game/main.py:169-171 | While `game_active` holds, nothing happens. Otherwise `save_records("player", score)` writes the new top five (`GameOverSave`, which is `SaveResult` for the name `player`) and shows Game_over. When the old file does not load, the raise ends the loop on the play screen. `Valid()` holds afterwards. |
| `FlappyGame.Game.Lost` | Flappybird_Game/main.py:147-160 | Definition: the frame clears `game_active`, when `bird_y > HEIGHT` or the bird touches a kept pipe; `Frame` and `PlayFrame` state the game is lost exactly then. |
| `FlappyGame.Game.Frame` | Flappybird_Game/main.py:140-171 | Off the play screen nothing changes. In play, the bird is lost exactly when `bird_y > HEIGHT` or it touches a kept pipe. The pipes become the scrolled, culled and flagged list, and the score rises by the pipes newly behind the bird. A lost frame saves once and goes to Game_over, or ends the loop if the load raises. A frame that is not lost stays in play. |
| `FlappyGame.Game.PlayFrame` | Flappybird_Game/main.py:140-171 | The same as `Frame`, on the play screen. |
| `FlappyGame.Game.ShowRecords` | Flappybird_Game/main.py:93-100 | On the records screen the table is reloaded and shown; a file that does not load ends the loop. Other screens do nothing. |
| `FlappyGame.Game.Iterate` | Flappybird_Game/main.py:81-171 | One iteration keeps `Valid()` and does nothing once the loop has ended. The score can drop only if some event of the iteration clicked Start. |

## Left out

- Rendering is not modelled: fonts, `draw_button`'s drawing, images, `resource_path`, `display`, `clock.tick` and `set_timer`. The pipe timer is the `SpawnPipe` event.
- `print` of the score (main.py:164) is not modelled, because it is output only.
- Frame: bird physics is not modelled. `gravity = 0.3` and `bird_speed` are floats, and `bird_index` only picks an animation image. The frame takes the bird's integer height and the current image size as inputs, and `bird_speed` changes only through Space and Start. The test `bird_y > HEIGHT` is made on that integer height, while the source makes it on the float `bird_y`: for `bird_y = 600.3` (Rect y 600) the source ends the game in that frame, and the model with `y = 600` ends it one frame later at the earliest.
- HandleEvent: a mouse press is tested at the position carried by the event. The source reads `pygame.mouse.get_pos()` when it handles the press.
- HandleEvent: the buttons are their fixed rectangles. In the source, `back_button` exists only after the records screen has been drawn once. So on the very first visit, a second mouse press in the iteration whose press opened the records screen raises NameError. The model does not capture that crash.
- The file system is not modelled: existence test, opening, UTF-8 decoding and writing. The file is its list of lines. `EndGame` returns the lines written, and the caller passes the file's lines into the next iteration.
- ParseInt: Python's `int()` also accepts non-ASCII Unicode digits. The model accepts ASCII digits only, with optional sign, surrounding `int()` whitespace and single underscores between digits.
- ParseInt: CPython 3.11 and later refuse `int()` of a string with more than 4300 digits (and `str()` of such an integer). The limit depends on the interpreter version and setting, so it is not modelled: scores of any length round-trip in the model.
- LineRoundTrip and RecordsRoundTrip: they assume names without commas or leading whitespace. They also leave out names with a newline, which would split the line when the file is read. The names the game writes are `"player"` or names already read from the file.
- `colliderect` is a library call. It is an assumption about pygame, restated as a positive-area overlap of integer rectangles (`PipeWorld.Collide`).
- `random.randint(100, 375)` is a nondeterministic choice in that range.
- Iterate: its contract states the invariant, the ended case and when the score can fall. The per-event and per-frame effects are stated by `HandleEvent` and `Frame`.
- `pygame.quit()` and `sys.exit()` on QUIT, and an uncaught exception from `load_records`, all end the process. They are modelled by the `exited` field, and after it is set, nothing changes.
