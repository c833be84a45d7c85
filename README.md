# Metagames-Latam game and list logic in Dafny

This project models and verifies the logic of five pages of the Metagames-Latam site. The React and canvas code around that logic is left out.

- **Dino Run, paid mode** (`HardPage`). The page's React state and the mutable record `gameStateRef.current` become one object, `HardPage.HardGame`. Each step of `gameLoop` is a method that updates that object in place:
  - gravity with the ground clamp;
  - jump only from the ground;
  - the speed ramp, capped at 10;
  - obstacle spawning with the spacing check and a random next delay;
  - the backward shift-and-splice loop;
  - the collision scan, which costs a life and removes the obstacle hit;
  - the bonus check and the free life.
- **Dino Run, free mode** (`FreePage`). The same engine with a difficulty switch:
  - easy: a fixed 3000 ms spawn and a cap of 20;
  - hard: a random 2000/3000/4000 ms spawn and a cap of 10.

  A collision ends the game at once and stops the loop.
- **Shared engine** (`DinoRun`). It holds what the two Dino Run pages share:
  - the obstacle and engine records;
  - the spacing invariant: a later obstacle is always more than 180 to the right of an earlier one;
  - the gravity, jump and speed functions;
  - the loop that moves and culls obstacles;
  - the first-overlap scan.
- **Diana timing game** (`DianaPage`). A marker bounces on an 800-wide track. The distance of a press from the centre gives its points (10/5/0) and its accuracy. The accuracy is then rounded and shown with a colour and a message. The marker speeds up every fifth attempt, up to 6, and the page keeps a best score.
- **Winners table** (`WinnersPage`). Email masking, record normalisation, a case-insensitive search, sorting by score in either order, rank labels and the two summary figures.
- **Weekly countdown** (`HomePage`). `calculateCountdown` runs on the milliseconds since Monday 00:00. It covers the window from Monday 08:00 to Sunday 20:00, the three-way classification, and the split of the difference into days, hours, minutes and seconds.

These values are parameters:
- `Date.now()` is an integer `now`;
- `Math.random()` is a real `r` with `0 <= r < 1`;
- the bonus server's answer is two booleans.

Positions and speeds are `real`.

## Model

| member | source | states |
|---|---|---|
| DinoRun.FreshEngine | src/pages/HardPage.tsx:260-270 | the record `startGame` installs: y 150 and dy 0, no obstacle, speed 3, delay 2000, the obstacle, start and speed timers at now; it satisfies the engine invariant for any cap of at least 3 |
| DinoRun.SpawnedObstacle | src/pages/HardPage.tsx:143-144 | the pushed obstacle is at x 800, 25 wide, stands on the line y + height = 160, and its height is in [30, 70) |
| DinoRun.HasDistance | src/pages/HardPage.tsx:139-140 | on a spaced list, the check of the newest obstacle alone holds if and only if every obstacle is more than 180 left of the spawn point |
| DinoRun.DelayPick | src/pages/HardPage.tsx:148-149 | the next delay is one of 2000, 3000, 4000; draws below 1/3 give 2000, draws from 2/3 give 4000 |
| DinoRun.Fall | src/pages/HardPage.tsx:236-241 | after the gravity step y ≤ 150; a dino that went below the ground is put on it with dy 0; otherwise dy grew by 0.3 and y moved by the new dy |
| DinoRun.Jumped | src/pages/HardPage.tsx:219-222 | dy becomes the impulse -12 exactly when y is 150 and is unchanged otherwise |
| DinoRun.RestingStaysOnGround | src/pages/HardPage.tsx:236-241 | a dino at rest on the ground stays there after a frame |
| DinoRun.JumpLeavesGround | src/pages/HardPage.tsx:219-241 | after a jump and one frame the dino is off the ground, so a jump in the next frame leaves every dy unchanged |
| DinoRun.SpeedRamp | src/pages/HardPage.tsx:154-163 | when 5000 ms have passed and the speed is under the cap, the speed becomes min(speed + 0.1, cap) and the increase time becomes now; otherwise nothing changes |
| DinoRun.SpeedRampBounds | src/pages/HardPage.tsx:154-163 | the speed never falls and grows by at most 0.1; it never passes a cap it was under; it changes only when 5000 ms have passed, together with the increase time |
| DinoRun.SpansMeetIff | src/pages/HardPage.tsx:186-191 | two non-empty open intervals share a point if and only if each starts before the other ends |
| DinoRun.Overlaps | src/pages/HardPage.tsx:186-191 | for a well-formed obstacle, the four strict comparisons hold if and only if the dino's box and the obstacle's box share an interior point on both axes |
| DinoRun.FirstOverlap | src/pages/HardPage.tsx:185-191 | the scan returns the index of the first obstacle whose box overlaps the dino's box, and none exactly when no obstacle overlaps |
| DinoRun.GroundedHitIsHorizontal | src/pages/HardPage.tsx:186-191 | a dino on the ground hits a spawned obstacle exactly when their x-ranges overlap |
| DinoRun.HighDinoIsSafe | src/pages/HardPage.tsx:186-191 | a dino whose box is entirely above height 70 over the base line never hits an obstacle |
| DinoRun.Shift | src/pages/HardPage.tsx:170 | an obstacle moves left by the speed and nothing else about it changes |
| DinoRun.ShiftAll | src/pages/HardPage.tsx:168-170 | every obstacle moved left by the speed, same length and order |
| DinoRun.OffScreen | src/pages/HardPage.tsx:175 | an obstacle is off screen if and only if its right edge is left of x = 0 |
| DinoRun.OffScreenStays | src/pages/HardPage.tsx:170-175 | an obstacle off screen stays off screen when moved further left |
| DinoRun.Survivors | src/pages/HardPage.tsx:168-179 | what the cull leaves is no longer than the input and has no obstacle past -width |
| DinoRun.ShiftAndCull | src/pages/HardPage.tsx:168-179 | the backward splice loop leaves exactly `Survivors` (the moved obstacles still on screen, in order) and counts exactly the removed ones |
| DinoRun.SurvivorsMembership | src/pages/HardPage.tsx:168-179 | an obstacle is kept if and only if it is a moved obstacle that is still on screen |
| DinoRun.CulledArePrefix | src/pages/HardPage.tsx:168-179 | on a spaced list the removed obstacles are exactly the oldest ones: the result is a suffix of the moved list |
| DinoRun.SpawnKeepsSpaced | src/pages/HardPage.tsx:139-144 | a spawn at 800 behind a last obstacle at x < 620 keeps every later obstacle more than 180 to the right of every earlier one |
| DinoRun.ShiftKeepsSpaced | src/pages/HardPage.tsx:168-170 | moving all obstacles by the same amount keeps the list spaced and well formed |
| DinoRun.SurvivorsKeepSpaced | src/pages/HardPage.tsx:168-179 | the cull keeps the list spaced and well formed |
| DinoRun.Without | src/pages/HardPage.tsx:211-212 | `splice(k, 1)`: one shorter, the elements before k in place, the later ones moved up by one |
| DinoRun.RemoveKeepsSpaced | src/pages/HardPage.tsx:211-212 | removing the collided obstacle keeps the list spaced and well formed |
| HardPage.HardGame.constructor | src/pages/HardPage.tsx:10-34 | the initial page state: one life, no game, dino on the ground |
| HardPage.HardGame.SetEmail | src/pages/HardPage.tsx:410 | the email field takes the typed value |
| HardPage.HardGame.ApplyGravity | src/pages/HardPage.tsx:236-241 | the dino's y and dy become `Fall` of the old ones; nothing else in the record changes |
| HardPage.HardGame.Jump | src/pages/HardPage.tsx:219-222 | dy becomes the impulse only on the ground; otherwise the record is unchanged |
| HardPage.HardGame.UpdateSpeed | src/pages/HardPage.tsx:154-163 | speed and increase time become `SpeedRamp` with cap 10, and the speed stays ≤ 10 |
| HardPage.HardGame.CreateObstacle | src/pages/HardPage.tsx:133-152 | a spawn happens if and only if the delay has passed and the list is empty or its last obstacle is at x < 620; it appends exactly one spawned obstacle and sets the timer and the next delay; otherwise the record is unchanged |
| HardPage.HardGame.UpdateObstacles | src/pages/HardPage.tsx:165-180 | the list becomes `Survivors` of the old list at the old speed and the score rises by exactly the number removed |
| HardPage.HardGame.DetectCollision | src/pages/HardPage.tsx:182-217 | a hit happens if and only if some obstacle overlaps; on a hit only the first overlapping obstacle is removed, lives fall by one, and the game is over if and only if lives ≤ 0, with the score recorded and the dialog shown; without a hit nothing changes |
| HardPage.HardGame.Frame | src/pages/HardPage.tsx:224-250 | over or paused: nothing changes and no frame is requested; otherwise a next frame is requested and the new state is the five steps in order: y and dy are `Fall` of the old ones; speed and increase time are `SpeedRamp` with cap 10; when the delay has passed and the spacing check holds, one obstacle is appended with the timer at now and a new delay; the list is then `Survivors` at the new speed, with one point per removed obstacle; without an overlap on that list nothing more changes; with one, only the first overlapping obstacle is removed, lives fall by one, and the game is over exactly when none is left, with the score recorded and the dialog shown |
| HardPage.HardGame.BonusCheckDue | src/pages/HardPage.tsx:64 | the effect fires only in a running game with an email, at a score of at least 50 |
| HardPage.HardGame.CheckBonusToken | src/pages/HardPage.tsx:37-67 | a request is sent if and only if a game is running and not over, the email is not empty, the score is a positive multiple of 50, and 10000 ms have passed since the last successful check; the timer moves to now only on an ok answer; a free-life answer opens the dialog and pauses the game; nothing else changes |
| HardPage.HardGame.ClaimFreeLife | src/pages/HardPage.tsx:69-73 | exactly one more life, dialog closed, game resumed |
| HardPage.HardGame.StartGame | src/pages/HardPage.tsx:252-273 | score 0, one life, running, not paused, and the engine is `FreshEngine(now)` with the bonus timer at 0 |
| HardPage.HardGame.ResetGame | src/pages/HardPage.tsx:275-287 | no game, not over, not paused, score 0, one life |
| HardPage.HardGame.PauseGame | src/pages/HardPage.tsx:289-291 | the pause flag flips |
| HardPage.HardGame.PressSpace | src/pages/HardPage.tsx:293-309 | with no game started: a fresh game (running, not paused, score 0, one life, `FreshEngine(now)`, bonus timer 0); in a game that is over: nothing changes; otherwise: dy becomes `Jumped` of the old values and nothing else changes (email, dialogs and final score are outside its frame) |
| FreePage.Cap | src/pages/FreePage.tsx:86 | the cap lies above the start speed 3 and is at most 20 (the body is `difficulty === 'easy' ? 20 : 10`) |
| FreePage.FreeGame.constructor | src/pages/FreePage.tsx:8-27 | the initial page state, with hard difficulty selected |
| FreePage.FreeGame.SetDifficulty | src/pages/FreePage.tsx:12 | the difficulty takes the chosen value |
| FreePage.FreeGame.ApplyGravity | src/pages/FreePage.tsx:149-154 | the dino's y and dy become `Fall` of the old ones |
| FreePage.FreeGame.Jump | src/pages/FreePage.tsx:132-135 | dy becomes the impulse only on the ground |
| FreePage.FreeGame.UpdateSpeed | src/pages/FreePage.tsx:84-93 | speed and increase time become `SpeedRamp` with the difficulty's cap; a speed under the cap stays under it; each call adds at most 0.1 |
| FreePage.FreeGame.CreateObstacle | src/pages/FreePage.tsx:47-82 | easy: a spawn happens if and only if 3000 ms have passed and the spacing check passes, and the delay field is never modified; hard: a spawn happens if and only if the current delay has passed and the spacing check passes, and then the next delay is drawn; exactly one obstacle is appended, or nothing changes |
| FreePage.FreeGame.UpdateObstacles | src/pages/FreePage.tsx:95-111 | the list becomes `Survivors` of the old list and the score rises by the number removed |
| FreePage.FreeGame.DetectCollision | src/pages/FreePage.tsx:113-130 | a hit happens if and only if some obstacle overlaps; on a hit the game is over, the final score is the score, the dialog is shown, and the obstacle list is unchanged |
| FreePage.FreeGame.Frame | src/pages/FreePage.tsx:137-164 | over or paused: nothing changes and no frame is requested; otherwise the new state is the five steps in order: y and dy are `Fall` of the old ones; speed and increase time are `SpeedRamp` with the difficulty's cap; a spawn when due under the difficulty's rule (3000 ms in easy mode, the drawn delay in hard mode, which then draws the next one); the list is then `Survivors` at the new speed, with one point per removed obstacle; the game is over, with the score recorded and the dialog shown, exactly when the dino overlaps an obstacle of that list, and a next frame is requested exactly when it does not |
| FreePage.FreeGame.StartGame | src/pages/FreePage.tsx:166-185 | score 0, running, and the engine is `FreshEngine(now)`: no obstacle, speed 3, dino at y 150 with dy 0, the obstacle, start and speed timers at now |
| FreePage.FreeGame.ResetGame | src/pages/FreePage.tsx:187-198 | no game, not over, not paused, score 0 |
| FreePage.FreeGame.PauseGame | src/pages/FreePage.tsx:200-202 | the pause flag flips |
| FreePage.FreeGame.PressSpace | src/pages/FreePage.tsx:204-220 | with no game started: a fresh game (running, not paused, score 0, `FreshEngine(now)`); in a game that is over: nothing changes; otherwise: dy becomes `Jumped` of the old values, and the game stays started and running with its pause flag and score |
| DianaPage.Distance | src/pages/DianaPage.tsx:105 | the absolute distance to the target at 400 |
| DianaPage.Points | src/pages/DianaPage.tsx:107-119 | a press scores 10, 5 or 0 |
| DianaPage.Accuracy | src/pages/DianaPage.tsx:107-119 | accuracy is in [90,100] in the perfect zone (distance ≤ 20), in [50,90) in the good zone (≤ 40) and 0 outside; it is 100 exactly at distance 0 |
| DianaPage.AccuracyNonIncreasing | src/pages/DianaPage.tsx:110-119 | a press further from the target never has a higher accuracy, across zone borders too |
| DianaPage.PointsMatchAccuracy | src/pages/DianaPage.tsx:107-119 | 10 points exactly when accuracy ≥ 90; 5 exactly when it is in [50,90); 0 exactly when it is 0 |
| JsMath.Round | src/pages/DianaPage.tsx:121 | `Math.round` gives the nearest integer, with halves rounded up (also used for the winners average) |
| DianaPage.ShownAccuracy | src/pages/DianaPage.tsx:121 | the stored accuracy is in [90,100] in the perfect zone, in [50,90] in the good zone, and 0 outside |
| DianaPage.ShownAccuracyNonIncreasing | src/pages/DianaPage.tsx:110-121 | the shown accuracy never rises with the distance |
| JsMath.RoundMonotone | src/pages/DianaPage.tsx:121 | rounding keeps the order |
| DianaPage.BorderPressShowsGreen | src/pages/DianaPage.tsx:114-121 | a press at distance 20.2 earns 5 points but is shown as 90, in green |
| DianaPage.AccuracyColor | src/pages/DianaPage.tsx:209-214 | gray if and only if there was no press; green if and only if ≥ 90; yellow if and only if in [50,90); red if and only if < 50 |
| DianaPage.AccuracyMessage | src/pages/DianaPage.tsx:216-223 | no message exactly when there was no press, then one message per band: ≥ 95, [85,95), [70,85), [50,70), < 50 |
| DianaPage.MessageMonotone | src/pages/DianaPage.tsx:216-223 | a higher accuracy never gets a worse message |
| DianaPage.ColorAgreesWithMessage | src/pages/DianaPage.tsx:209-223 | red if and only if "missed"; gray if and only if no message; a perfect is green; "very good" and "good" are yellow |
| DianaPage.PressFeedback | src/pages/DianaPage.tsx:104-121 | a press is shown red, and as missed, exactly when it scores nothing; a 10-point press is green |
| DianaPage.Bounce | src/pages/DianaPage.tsx:87-94 | the new direction is the old one or its reverse, and the marker moves by the speed in the new direction |
| DianaPage.BounceStaysOnTrack | src/pages/DianaPage.tsx:84-97 | the bounce step keeps the marker strictly between 50 and 750; it moves by exactly the speed; the direction stays ±1 and flips exactly when the tentative position reaches a turning point |
| DianaPage.SpeedAfter | src/pages/DianaPage.tsx:125-128 | the speed changes only on every fifth attempt; then it becomes speed + 0.3 or 6, never above 6, and a speed under 6 strictly rises |
| DianaPage.SpeedAfterAttempts | src/pages/DianaPage.tsx:125-128 | the speed after n attempts of a round lies between 2 and 6 |
| DianaPage.SpeedSchedule | src/pages/DianaPage.tsx:125-128 | after n attempts the speed is min(2 + 0.3 · (n div 5), 6) |
| DianaPage.DianaGame.constructor | src/pages/DianaPage.tsx:11-25 | the initial page state |
| DianaPage.DianaGame.Frame | src/pages/DianaPage.tsx:77-101 | while a game runs, position and direction become `Bounce` of the old ones; otherwise nothing changes; the next frame is requested exactly while a game runs; the speed stays `SpeedAfterAttempts` of the attempts made |
| DianaPage.DianaGame.CheckAccuracy | src/pages/DianaPage.tsx:103-131 | returns the points of the current distance and stores its shown accuracy; the score rises by exactly those points, attempts rise by exactly one, and the speed becomes `SpeedAfter` |
| DianaPage.DianaGame.Hit | src/pages/DianaPage.tsx:133-136 | with no game running nothing changes; otherwise the press scores `Points` of the distance, stores its `ShownAccuracy`, counts one attempt, and the speed becomes `SpeedAfter` |
| DianaPage.DianaGame.StartGame | src/pages/DianaPage.tsx:138-155 | score and attempts 0, no accuracy shown, marker at 400 moving right at speed 2; the best score is kept |
| DianaPage.DianaGame.StopGame | src/pages/DianaPage.tsx:157-170 | the game stops and the best score becomes max(best, score) |
| DianaPage.DianaGame.PressSpace | src/pages/DianaPage.tsx:172-191 | with no round running: a new round (score and attempts 0, no accuracy, the marker at 400 moving right at speed 2); otherwise one press: the score rises by `Points` of the distance, its `ShownAccuracy` is stored, attempts rise by one, the speed becomes `SpeedAfter`, and the marker stays where it is |
| WinnersPage.CensorEmail | src/pages/WinnersPage.tsx:19-23 | an email of at most 6 characters is unchanged; a longer one becomes its first 3 characters, "..." and its last 3, 9 in all |
| WinnersPage.CensorTwice | src/pages/WinnersPage.tsx:19-23 | masking a masked email changes nothing |
| WinnersPage.NormalizeOne | src/pages/WinnersPage.tsx:47-50 | a missing email becomes "" and a score that is not a number becomes 0; present values are kept |
| WinnersPage.Normalize | src/pages/WinnersPage.tsx:47-50 | same length, and each position holds its own normalised record |
| WinnersPage.NormalizeAppend | src/pages/WinnersPage.tsx:47-50 | normalisation distributes over concatenation, so records keep their order |
| WinnersPage.LowerChar | src/pages/WinnersPage.tsx:67 | ASCII capitals map to their lower-case letter; other characters are kept; the result is never a capital |
| WinnersPage.ToLower | src/pages/WinnersPage.tsx:67 | same length, and each character is lower-cased |
| WinnersPage.ToLowerIdempotent | src/pages/WinnersPage.tsx:67 | lower-casing twice is lower-casing once |
| WinnersPage.Contains | src/pages/WinnersPage.tsx:67 | the empty term is always found, and a term that is found is no longer than the email |
| WinnersPage.ContainsIff | src/pages/WinnersPage.tsx:67 | `includes` holds if and only if the term occurs at some position of the email |
| WinnersPage.ContainsEmpty | src/pages/WinnersPage.tsx:67 | the empty term occurs in every email |
| WinnersPage.Matches | src/pages/WinnersPage.tsx:66-67 | a row matches if and only if the lower-cased term occurs at some position of the lower-cased email; the empty term matches every row |
| WinnersPage.Filter | src/pages/WinnersPage.tsx:66-68 | a winner is kept if and only if it is in the list and matches; every matching row is kept as many times as it occurs and every other row is dropped |
| WinnersPage.FilterEmptyTerm | src/pages/WinnersPage.tsx:66-68 | an empty search keeps the whole list, in order |
| WinnersPage.FilterIdempotent | src/pages/WinnersPage.tsx:66-68 | filtering a filtered list again changes nothing |
| WinnersPage.Toggle | src/pages/WinnersPage.tsx:157 | the sort button always changes the order |
| WinnersPage.ToggleTwice | src/pages/WinnersPage.tsx:157 | two presses restore the order |
| WinnersPage.InsertPermutes | src/pages/WinnersPage.tsx:70-72 | inserting adds exactly the one row |
| WinnersPage.InsertSorted | src/pages/WinnersPage.tsx:70-72 | inserting into a sorted list keeps it sorted |
| WinnersPage.Sort | src/pages/WinnersPage.tsx:70-72 | the sorted copy is a permutation of its input; scores never rise in desc order and never fall in asc order |
| WinnersPage.Visible | src/pages/WinnersPage.tsx:65-75 | the table is sorted in the chosen order, is a permutation of the filtered rows, and holds exactly the matching winners |
| WinnersPage.SortedBothWaysIsConstant | src/pages/WinnersPage.tsx:70-72 | only a table whose scores are all equal is sorted in both orders |
| WinnersPage.RankIconOf | src/pages/WinnersPage.tsx:77-82 | indices 0, 1 and 2 get the three medals; any other index i gets "#" followed by i + 1 |
| WinnersPage.RankColorOf | src/pages/WinnersPage.tsx:84-89 | indices 0, 1 and 2 get the three medal colours; all others get the plain colour |
| WinnersPage.RankLabelsDistinct | src/pages/WinnersPage.tsx:77-89 | no two rows share a rank label; the plain colour goes exactly with the numbered labels |
| WinnersPage.Highest | src/pages/WinnersPage.tsx:225 | the first row's score, or 0 for an empty table |
| WinnersPage.HighestIsMaximum | src/pages/WinnersPage.tsx:225 | in desc order the figure is the maximum score; in asc order it is the minimum |
| WinnersPage.SumBounds | src/pages/WinnersPage.tsx:233 | the `reduce` sum lies between n·lowest and n·highest |
| WinnersPage.SumScoresAppend | src/pages/WinnersPage.tsx:233 | the sum splits over a concatenation |
| WinnersPage.SumScoresRemove | src/pages/WinnersPage.tsx:233 | taking out one row takes its score out of the sum |
| WinnersPage.SumScoresPermutation | src/pages/WinnersPage.tsx:233 | two tables with the same rows, in any order, have the same sum |
| WinnersPage.Average | src/pages/WinnersPage.tsx:232-235 | 0 for an empty table; otherwise the integer nearest to the mean score, halves rounded up |
| WinnersPage.MeanBounds | src/pages/WinnersPage.tsx:233 | a rounded mean of such a sum lies between the lowest and highest score |
| WinnersPage.AverageBetween | src/pages/WinnersPage.tsx:232-235 | the average figure lies between the lowest and highest score of the table |
| WinnersPage.AverageIndependentOfOrder | src/pages/WinnersPage.tsx:232-235 | the average figure is the same in both orders: the mean of the filtered rows |
| WinnersPage.CountIndependentOfOrder | src/pages/WinnersPage.tsx:218 | the row count is the number of matching winners, whatever the order |
| HomePage.DaysSinceMonday | src/pages/HomePage.tsx:28 | `(getDay() + 6) % 7` lies in [0,6]; it is 0 exactly on Monday and 6 exactly on Sunday |
| HomePage.DaysSinceMondayInverse | src/pages/HomePage.tsx:28 | the Monday-based count gives back the day of the week, so it is one to one |
| HomePage.WeekTime | src/pages/HomePage.tsx:27-28 | an instant is a time in [0, one week) whose day part is the days since Monday and whose rest is the time of day |
| HomePage.WindowLength | src/pages/HomePage.tsx:27-34 | the window runs six days and twelve hours |
| HomePage.CountdownAt | src/pages/HomePage.tsx:36-54 | exactly one branch applies: "starts in" if and only if before Monday 08:00; open if and only if between Monday 08:00 and Sunday 20:00 inclusive; closed if and only if after the end |
| HomePage.OpenDecomposition | src/pages/HomePage.tsx:45-50 | in the open branch: days ≤ 6, hours < 24, minutes and seconds < 60, and together they are exactly the whole seconds to the end |
| HomePage.StartsInOnlyMondayMorning | src/pages/HomePage.tsx:27-42 | "starts in" appears if and only if it is Monday before 08:00; hours ≤ 8 (8 only at Monday 00:00:00.000), minutes and seconds < 60, and together they are exactly the whole seconds to 08:00 |
| HomePage.StartsInClock | src/pages/HomePage.tsx:38-41 | the "starts in" reading of any difference up to 8 hours is a proper clock reading that sums to the whole seconds |
| HomePage.ClosedOnlySundayEvening | src/pages/HomePage.tsx:51-53 | the closed message appears if and only if it is Sunday after 20:00 |
| HomePage.Decompose | src/pages/HomePage.tsx:45-50 | dividing the milliseconds by each unit works through the whole seconds, and the four parts add back up to them |
| HomePage.FloorOfRealMod | src/pages/HomePage.tsx:47-49 | the page's `Math.floor((diff / unit) % m)` on floating-point numbers equals the integer `(diff / unit) % m` the model uses |
| HomePage.FloorOfQuotient | src/pages/HomePage.tsx:46 | `Math.floor(diff / unit)` equals the integer quotient |

`HardPage.HardGame.DetectCollision` requires a game that is not over. In the source it is reached only from `gameLoop`, after that function's own game-over guard.

## Left out

- Canvas drawing (`drawDino`, `drawGame`, `fillRect`, `arc`) and all JSX markup. They render and compute nothing else.
- Network calls:
  - the bonus-token request: its answer is modelled as two booleans;
  - the score submission after a paid-mode game over;
  - the login request;
  - the winners download: the table starts from the parsed JSON list.
- The `sessionStorage` and `localStorage` handling of the paid mode and the home page, the header and login session handling, and the route table. They are browser storage and routing.
- The animation-frame id, `requestAnimationFrame`, `cancelAnimationFrame` and `setInterval`. On all three game pages a frame is one call of a `Frame` method, and whether the next frame was requested is its returned boolean.
- React's batched, asynchronous `setState` and the values captured by callbacks. Updates are sequential. `detectCollision` records the current score, and `checkAccuracy` counts from the current attempts.
- The immediate `gameLoop()` call inside each `startGame`: it runs a closure from before the state change. The game's first frame is the next `Frame` call.
- The email dialog of the paid mode and its non-empty check. Only the resulting email is part of the state.
- The `onGameOver` callback of the Diana page.
- IEEE-754 arithmetic: positions and speeds are exact reals. The `y === 150` test after repeated float additions, and the rounding of `speed += 0.1`, are not modelled.
- JavaScript `Date`: time zones, daylight-saving changes and `setDate` overflow. The countdown works on the milliseconds since Monday 00:00 of a local week.
- Unicode case mapping: `toLowerCase` is modelled on the ASCII letters only.
- JSON edge cases of the winners list:
  - an email that is `null`, empty or missing becomes ""; other non-string values are not modelled;
  - scores are integers, and `NaN` is not modelled.
- The rendered strings `#n`, `toLocaleString` and the message emojis: ranks, colours and messages are datatypes.
- Stability of the winners sort: ties stay in their filtered order, but only the permutation and the order are stated.
- Email length: `length` and `substring` count UTF-16 code units, while `CensorEmail` counts characters. An email with a character outside the Basic Multilingual Plane is masked differently.
- The two clock reads of a frame: `updateSpeed` and `createObstacle` each call `Date.now()`, but `Frame` gives both the same `now`.
- CheckBonusToken: the request and its answer are one step. In the source the answer arrives after an `await`, so it can open the free-life dialog and pause the page after the game has ended.
- FreePage.FreeGame.UpdateSpeed: the speed stays under the cap only if it was already under it. The difficulty buttons are live during a game, so a switch from easy to hard at a speed above 10 leaves it above 10. From then on it is only no longer raised.
