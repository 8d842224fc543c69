# Space Invaders frame simulation, modelled in Dafny

This project models the frame simulation of a small turtle-graphics Space Invaders game
(`space_invaders.py`). It covers:

- the fresh-game setup: the player at its start position and a 3 x 10 grid of enemies, each with a
  random direction flag;
- the three keyboard commands that change the state: move left, move right and fire;
- one frame of the main loop:
  - player bullets fly up and are culled past the top border;
  - every enemy falls, may drift sideways by its flag, and has its flag bounced or randomly inverted;
  - enemies may fire;
  - enemy bullets fly down and are culled past the bottom border;
  - player bullets destroy the first enemy whose box holds them;
  - the four terminal checks run: direct collision, hit by enemy fire, an enemy at the bottom,
    victory;
  - the frame counter advances.

The game state is the class `Game.Game`. Its fields are the player position, the enemy list, the
flag list, the two bullet lists, the score and the frame counter. Each source routine that mutates
the state is a method of that class. The method loops over the lists the way the source does, and
it is proved against a pure specification function:

| method | specification function |
|---|---|
| `AdvancePlayerBullets`, `AdvanceEnemyBullets` | `Movement.Fly` |
| `StepEnemies` | `Wave.Marched` and `Wave.Steered` |
| `EnemiesFire` | `Wave.Volley` |
| `ResolvePlayerBullets` | `Collision.Resolve` |
| `CheckEndings` | `Outcome.Endings` |

The lemmas about those functions carry the properties.

The source has random draws: `randint(0, 1)` at spawn, and the drift, inversion and fire chances
each frame. In the model these are sequences of booleans that the caller supplies, one per enemy.
So every operation is a deterministic function of its draws. Turtle coordinates are exact `real`s.
A turtle step along heading 0, 90, 180 or 270 moves exactly one axis.

`Game.Valid` is the invariant that every operation keeps. It says:

- every enemy has a flag;
- every flag is 0 or 1;
- the player stands on a multiple of the 20-unit step, within the side borders.

`Game.Banded` says that every enemy:

- has an even whole x;
- is at most one drift step outside the side borders;
- already has its flag pointing back inwards when it is at that outermost x.

A fresh game is banded, and an enemy step keeps it banded. The collision pass does not, because of
the flag quirk below.

## Behaviour of the code worth knowing

The model follows the code as written in each of these cases, including where one would expect
otherwise:

- **Flags are not removed.** The collision pass removes the destroyed enemy from the enemy list but
  leaves the flag list alone (`space_invaders.py:222`). One would expect the paired flag to be
  removed too. After a kill:
  - each later enemy reads the flag of its predecessor;
  - the flag list grows longer than the enemy list.

  `Valid` therefore asks only for at least as many flags as enemies. `Game.RemovalShiftsFlags`
  exhibits an enemy that the shift leaves outside its band. One more step then carries it two drift
  steps past the border.
- **Score is never incremented.** One would expect a reward per kill. `Game.Game.Tick` ensures the
  score is unchanged.
- **Flags are 0 (left) and 1 (right),** not -1 and +1. Inversion is `1 - flag`.
- **All four terminal checks are evaluated, in order, with no `elif`.** One might expect a frame
  that empties the wave to announce victory before any loss. In the code, a hit by enemy fire on
  that same frame is announced first and the victory after it. Every condition that holds is
  announced. The first announcement's `terminar_handler` closes the window, but nothing leaves the
  loop: the later checks still run and the frame counter is still incremented (`Game.Game.Tick`).
  `Outcome.EmptyWave` states the resulting order.
- **The bounce judges the x from before the move.** An enemy can therefore end exactly one drift
  step outside a border, with its flag already pointing back (`Wave.OneStepOutside`). Enemy x is
  always an even whole number, so that is as far as a step alone can take it. `Wave.InBand` is
  this one-step bound. Only the flag shift of the collision pass takes an enemy further.

## Model

| member | source | states |
|---|---|---|
| Movement.Flown | space_invaders.py:155-173 | definition: a bullet moved one frame, +16 for player bullets (heading 90) and -8 for enemy bullets (heading 270) |
| Movement.InField | space_invaders.py:155-173 | definition: a player bullet is kept while y is at most 440, an enemy bullet while y is at least -440 |
| Movement.Fly | space_invaders.py:155-173 | definition: the bullet list after one advance-and-cull pass, bullets taken front to back; its meaning is stated by FlyOne, FlyDistributes, FlyMembers and FlyKeepsAll |
| Movement.LeftOf | space_invaders.py:129-131 | definition: the player x after a move-left command, 20 less unless x is at most -280; stated by CommandsStayOnTrack |
| Movement.RightOf | space_invaders.py:136-138 | definition: the player x after a move-right command, 20 more unless x is at least 280; stated by CommandsStayOnTrack |
| Wave.Slot | space_invaders.py:104-115 | definition: the spawn position of row r, column c, (268 - 60c, 408 - 60r) |
| Wave.Formation | space_invaders.py:104-115 | definition: the 30 spawn positions in creation order; stated by FormationLayout, FormationDistinct and FormationInside |
| Wave.InitialFlags | space_invaders.py:111-112 | definition: one flag per coin draw, 1 for heads and 0 for tails, as `randint(0, 1)` |
| Wave.Drifted | space_invaders.py:178-187 | definition: an enemy after its fall and optional drift by its flag; stated by StepDeltas |
| Wave.NextFlag | space_invaders.py:189-195 | definition: the flag after the bounce at the pre-move x, or after the optional inversion; stated by FlagStaysBinary |
| Wave.Marched | space_invaders.py:175-187 | definition: every enemy i drifted by flag i and draw i; the specification of StepEnemies' positions |
| Wave.Steered | space_invaders.py:175-195 | definition: the first one-per-enemy flags updated by NextFlag, any further flags left alone; the specification of StepEnemies' flags |
| Wave.Muzzle | space_invaders.py:200-201 | definition: where an enemy's bullet starts, 15 below it |
| Wave.Volley | space_invaders.py:197-201 | definition: the bullets a round of enemy fire appends, in enemy order; stated by VolleyDistributes, VolleyCount, VolleyMembers and FullVolley |
| Wave.Fired | space_invaders.py:199 | definition: the number of enemies whose fire draw succeeds |
| Collision.InEnemyBox | space_invaders.py:211-214 | definition: a bullet point in the closed 32-wide square around an enemy |
| Collision.InPlayerBox | space_invaders.py:233-256 | definition: a point in the closed 20-wide square around the player |
| Collision.Strike | space_invaders.py:206-225 | definition: one bullet against the enemies alive, by FirstHit; stated by StrikeMiss and StrikeHit |
| Collision.Resolve | space_invaders.py:203-225 | definition: the collision pass, bullets taken front to back against the shrinking enemy list; stated by ResolveBalanced, ResolveKeepsOrder and ResolveLeavesNoHit |
| Outcome.Endings | space_invaders.py:323-337 | definition: the terminal announcements in the loop's order; stated by PlayGoesOn, VictoryIffNoEnemies, EmptyWave and DirectCollisionFirst |
| Collision.FirstHit | space_invaders.py:208-225 | the enemy index the scan of one bullet stops at, if any, is a valid index into the enemy list |
| Collision.FirstHitIsFirst | space_invaders.py:208-225 | the enemy found holds the bullet in its box and no earlier enemy does; nothing is found exactly when no enemy's box holds the bullet |
| Collision.StrikeMiss | space_invaders.py:204-225 | a bullet that hits no enemy is kept at the end of the kept bullets and the enemies are unchanged |
| Collision.StrikeHit | space_invaders.py:214-225 | a bullet whose first hit is enemy j is dropped and exactly enemy j is removed, the other enemies keeping their order |
| Collision.ResolveBalanced | space_invaders.py:203-225 | the pass never adds bullets, and the number of bullets removed equals the number of enemies removed (one kill per removed bullet) |
| Collision.ResolveKeepsOrder | space_invaders.py:203-225 | surviving bullets and surviving enemies are subsequences of the originals, in their original order |
| Collision.ResolveLeavesNoHit | space_invaders.py:203-225 | after the pass no kept bullet lies in the box of a surviving enemy |
| Collision.HitByEnemyFire | space_invaders.py:227-239 | the check returns 0 or 1, and 1 exactly when some enemy bullet lies in the player's 10-unit half-box |
| Collision.ReachedBottom | space_invaders.py:241-245 | the check returns 0 or 1, and 1 exactly when some enemy has y at or below the bottom border |
| Collision.TouchesEnemy | space_invaders.py:247-259 | the check returns 0 or 1, and 1 exactly when some enemy position lies in the player's half-box |
| Movement.FlyDistributes | space_invaders.py:155-173 | the advance-and-cull pass treats bullets independently: on a concatenation it is the concatenation of the passes |
| Movement.FlyOne | space_invaders.py:155-173 | a single bullet moves by its side's speed (+16 up, -8 down) and is kept iff it has not passed the border it flies towards |
| Movement.FlyMembers | space_invaders.py:155-173 | a position survives the pass iff it is some bullet moved one step that is still inside the field |
| Movement.FlyKeepsAll | space_invaders.py:155-173 | the pass never grows the list, and keeps its length iff every moved bullet is still inside the field |
| Movement.CommandsStayOnTrack | space_invaders.py:126-138 | from any on-track x, both commands stay on the track within the borders; a command leaves x unchanged iff the player is at that side's border |
| Movement.StartOnTrack | space_invaders.py:301 | the start x, 0, is on the player's track |
| Wave.FormationLayout | space_invaders.py:103-115 | a fresh formation has 30 enemies, and enemy row * 10 + col is at column col, row row of the grid anchored at the top right |
| Wave.FormationDistinct | space_invaders.py:103-115 | no two enemies of a fresh formation share a position |
| Wave.FormationInside | space_invaders.py:103-115 | every enemy of a fresh formation is strictly between the side borders and below the top border, at an even whole x |
| Wave.FormationInBand | space_invaders.py:103-115 | a fresh formation is in the one-step band for any coin draws |
| Wave.StepDeltas | space_invaders.py:178-187 | every enemy falls by exactly 0.5; it moves sideways by 2 or not at all, not at all iff it did not drift, leftwards iff it drifted with flag 0 |
| Wave.FlagStaysBinary | space_invaders.py:189-195 | a 0/1 flag stays 0/1; at or past the right border it becomes 0, at or past the left border 1, and inside it changes iff the inversion draw fires |
| Wave.BandPreserved | space_invaders.py:175-195 | one enemy in the one-step band (even whole x, at most one drift step past a border, heading back there) stays in it after a step with any draws |
| Wave.MarchStaysInBand | space_invaders.py:175-195 | when enemy i is paired with flag i, an enemy step keeps every enemy in the one-step band |
| Wave.OneStepOutside | space_invaders.py:182-195 | an enemy at 278 heading right reaches the border at 280, is bounced there on its old x, drifts on to 282 (one step out) with flag 0, and drifts back to 280 |
| Wave.VolleyMembers | space_invaders.py:197-201 | a round of enemy fire adds no more bullets than there are enemies, and a position is added iff some firing enemy is 15 units above it |
| Wave.VolleyDistributes | space_invaders.py:197-201 | the volley of a concatenation of enemies is the volley of the first part followed by that of the second: each enemy contributes on its own, in enemy order |
| Wave.VolleyCount | space_invaders.py:197-201 | a volley holds exactly one bullet per enemy whose fire draw succeeds |
| Wave.FullVolley | space_invaders.py:197-201 | when every enemy fires, the new bullets are one under each enemy, in enemy order |
| Outcome.PlayGoesOn | space_invaders.py:323-337 | nothing is announced iff no enemy and no enemy bullet is in the player's box, every enemy is above the bottom border and some enemy is left |
| Outcome.VictoryIffNoEnemies | space_invaders.py:335-337 | victory is announced iff the enemy list is empty, and it is then the last announcement |
| Outcome.EmptyWave | space_invaders.py:327-337 | with no enemies left, a hit by enemy fire is announced before the victory |
| Outcome.DirectCollisionFirst | space_invaders.py:323-325 | when an enemy is in the player's box, the direct collision is the first announcement |
| Game.Game.NewGame | space_invaders.py:284-302 | a new game has the player at (0, -350), the fresh formation with one coin-drawn flag per enemy, no bullets, score and frame 0, and is valid and banded |
| Game.Game.SpawnFormation | space_invaders.py:103-115 | the nested spawn loops append exactly the formation to the enemies and one flag per coin to the flags, keeping the invariant |
| Game.Game.SpawnRow | space_invaders.py:108-115 | one pass of the outer spawn loop (the whole inner loop) appends one full row of the formation at its height and its 10 coin-drawn flags |
| Game.Game.MoveLeft | space_invaders.py:126-131 | the player moves 20 left unless at the left border, y unchanged, keeping the invariant |
| Game.Game.MoveRight | space_invaders.py:133-138 | the player moves 20 right unless at the right border, y unchanged, keeping the invariant |
| Game.Game.Fire | space_invaders.py:140-143 | exactly one player bullet is appended, 15 units above the player |
| Game.Game.AdvancePlayerBullets | space_invaders.py:155-163 | walking a snapshot while removing from the live list leaves exactly the advance-and-cull pass of the old list |
| Game.Game.AdvanceEnemyBullets | space_invaders.py:165-173 | the same for enemy bullets, which fly down and are culled below the bottom border |
| Game.Game.StepEnemies | space_invaders.py:175-195 | the enemies and flags become the step of the old ones under the draws; the invariant and the band are kept |
| Game.Game.EnemiesFire | space_invaders.py:197-201 | the enemy bullets become the old ones followed by the volley of the firing enemies |
| Game.Game.StrikeFirst | space_invaders.py:206-225 | the inner scan for one bullet leaves the lists exactly as one strike of that bullet prescribes, and never adds an enemy |
| Game.Game.ResolvePlayerBullets | space_invaders.py:203-225 | the collision pass over a snapshot leaves exactly the resolved bullets and enemies, and never adds an enemy |
| Game.Game.CheckEndings | space_invaders.py:323-337 | the announcements are exactly the terminal conditions that hold, in the loop's order |
| Game.Game.MoveEverything | space_invaders.py:317-320 | the first four calls of the main loop compose the bullet, enemy, fire and enemy-bullet passes in that order |
| Game.Game.Tick | space_invaders.py:316-339 | one frame yields the composition of all passes, the terminal announcements on the new state, the frame counter plus one, the player and score unchanged, no more enemies than before and no change to the flag count; the invariant is kept |
| Game.RemovalShiftsFlags | space_invaders.py:203-225 | killing an enemy shifts the flags of the enemies after it: an enemy at 282 with flag 0, in band, gets flag 1 once its predecessor is shot, leaves the band and drifts on to 284, two full steps past the border |

## Left out

- Drawing, sprites and the window are not modelled. `screen.update`, `clear`, `hideturtle` and the
  asset-existence check with `sys.exit` are external display code.
- Keyboard binding is not modelled. The command handlers are methods that a caller may invoke
  between frames.
- The start-up prompt for a save file name and the 16 ms sleep are not modelled. These are I/O and
  timing.
- The highscore and save/load routines (`ler_highscores`, `atualizar_highscores`,
  `guardar_estado_txt`, `carregar_estado_txt`, `restaurar_balas`, `gravar_handler`) are not
  modelled. In the source they only print a placeholder message, so there is no behaviour to model.
  The loaded-game branch of start-up is left out for the same reason.
- The unused spawn parameters (`posicoes_existentes`, `dirs_existentes`) and the unused constants
  `COLLISION_RADIUS` and `TOP_N` have no effect and are not modelled.
- Probabilities (`ENEMY_DRIFT_CHANCE`, `ENEMY_INVERT_CHANCE`, `ENEMY_FIRE_CHANCE`) are replaced by
  the caller's draws. The model says nothing about how often a draw fires.
- Floating-point rounding of turtle headings is not modelled. Coordinates are exact reals.
- `terminar_handler` and `screen.bye` are not modelled. The frame returns the list of every ending
  announced on it. How the process stops after `bye()` is not modelled: the loop itself never
  exits, and what ends it is the graphics library failing on a screen call to a closed window.
- Game.Game.Tick: does not state that the band is kept, because the collision pass can break it
  (see `Game.RemovalShiftsFlags`).
- Removal by identity is not modelled as such. Python's `list.remove(bullet)` removes the turtle
  object itself. The model removes the bullet at the index being scanned, which holds that same
  object.
