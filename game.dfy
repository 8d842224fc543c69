/** The game state and the per-frame operations that update it in place. */
module Game {
  import opened Config
  import opened Seqs
  import opened Movement
  import opened Wave
  import opened Collision
  import opened Outcome

  /** The state of one game. Enemy i moves in the direction of flag i (0 left, 1 right). */
  class Game {
    var player: Pos
    var enemies: seq<Pos>
    var enemyMoves: seq<int>
    var playerBullets: seq<Pos>
    var enemyBullets: seq<Pos>
    var score: int
    var frame: int

    /** What every operation keeps: each enemy has a flag to read, every flag is 0 or 1,
        and the player is on its track between the side borders. */
    ghost predicate Valid()
      reads this
    {
      |enemies| <= |enemyMoves|
      && (forall i :: 0 <= i < |enemyMoves| ==> enemyMoves[i] == 0 || enemyMoves[i] == 1)
      && OnTrack(player.x)
    }

    /** Every enemy is in the band of its flag (see Wave.InBand). */
    ghost predicate Banded()
      reads this
      requires |enemies| <= |enemyMoves|
    {
      forall i :: 0 <= i < |enemies| ==> InBand(enemies[i].x, enemyMoves[i])
    }

    /** A new game: the player at its start position, a fresh formation, no bullets. */
    constructor NewGame(coins: seq<bool>)
      requires |coins| == EnemyRows * EnemyCols
      ensures Valid() && Banded()
      ensures player == Pos(PlayerStartX, PlayerStartY)
      ensures enemies == Formation() && enemyMoves == InitialFlags(coins)
      ensures playerBullets == [] && enemyBullets == [] && score == 0 && frame == 0
    {
      player := Pos(PlayerStartX, PlayerStartY);
      enemies, enemyMoves := [], [];
      playerBullets, enemyBullets := [], [];
      score, frame := 0, 0;
      new;
      StartOnTrack();
      SpawnFormation(coins);
      FormationInBand(coins);
    }

    /** Appends the formation to the enemies and one coin-drawn flag per enemy to the flags. */
    method SpawnFormation(coins: seq<bool>)
      requires |coins| == EnemyRows * EnemyCols
      modifies this`enemies, this`enemyMoves
      ensures enemies == old(enemies) + Formation()
      ensures enemyMoves == old(enemyMoves) + InitialFlags(coins)
      ensures old(Valid()) ==> Valid()
    {
      var y := EnemyStartY;
      var drawn := 0;
      var row := 0;
      while row < EnemyRows
        invariant 0 <= row <= EnemyRows
        invariant y == Slot(row, 0).y
        invariant drawn == |Rows(row)| == row * EnemyCols
        invariant enemies == old(enemies) + Rows(row)
        invariant enemyMoves == old(enemyMoves) + InitialFlags(coins[..drawn])
      {
        SpawnRow(coins, row, y, drawn, old(enemies), old(enemyMoves));
        RowsLength(row + 1);
        drawn := drawn + EnemyCols;
        y := y - EnemySpacingY;
        row := row + 1;
      }
      assert coins[..drawn] == coins;
    }

    /** One pass of the outer spawn loop: places row `row`, at height `y`, from right to left,
        drawing one coin per enemy from `coins[drawn..]`. */
    method SpawnRow(coins: seq<bool>, row: nat, y: real, drawn: nat, ghost enemies0: seq<Pos>, ghost flags0: seq<int>)
      requires drawn + EnemyCols <= |coins| && y == Slot(row, 0).y
      requires enemies == enemies0 + Rows(row) && enemyMoves == flags0 + InitialFlags(coins[..drawn])
      modifies this`enemies, this`enemyMoves
      ensures enemies == enemies0 + Rows(row + 1)
      ensures enemyMoves == flags0 + InitialFlags(coins[..drawn + EnemyCols])
    {
      var x := EnemyStartX;
      var col := 0;
      while col < EnemyCols
        invariant 0 <= col <= EnemyCols
        invariant Pos(x, y) == Slot(row, col)
        invariant enemies == enemies0 + Rows(row) + Row(row)[..col]
        invariant enemyMoves == flags0 + InitialFlags(coins[..drawn + col])
      {
        enemies := enemies + [Pos(x, y)];
        enemyMoves := enemyMoves + [Coin(coins[drawn + col])];
        RowSnoc(row, col);
        FlagsSnoc(coins, drawn + col);
        x := x - EnemySpacingX;
        col := col + 1;
      }
      assert Row(row)[..EnemyCols] == Row(row);
    }

    /** Move-left command: one step left unless the player is at the left border. */
    method MoveLeft()
      modifies this`player
      ensures player == Pos(LeftOf(old(player).x), old(player).y)
      ensures old(Valid()) ==> Valid()
    {
      if player.x > -BorderX {
        player := Pos(player.x - PlayerSpeed as real, player.y);
      }
      if old(Valid()) {
        CommandsStayOnTrack(old(player).x);
      }
    }

    /** Move-right command: one step right unless the player is at the right border. */
    method MoveRight()
      modifies this`player
      ensures player == Pos(RightOf(old(player).x), old(player).y)
      ensures old(Valid()) ==> Valid()
    {
      if player.x < BorderX {
        player := Pos(player.x + PlayerSpeed as real, player.y);
      }
      if old(Valid()) {
        CommandsStayOnTrack(old(player).x);
      }
    }

    /** Fire command: one new player bullet just above the player. */
    method Fire()
      modifies this`playerBullets
      ensures playerBullets == old(playerBullets) + [Pos(player.x, player.y + BulletSpawnOffset)]
    {
      playerBullets := playerBullets + [Pos(player.x, player.y + BulletSpawnOffset)];
    }

    /** Moves every player bullet up and removes those past the top border,
        walking a snapshot of the list while removing from the live one. */
    method AdvancePlayerBullets()
      modifies this`playerBullets
      ensures playerBullets == Fly(Player, old(playerBullets))
    {
      var snapshot := playerBullets;
      var i, live := 0, 0;
      while i < |snapshot|
        invariant 0 <= i <= |snapshot|
        invariant live == |Fly(Player, snapshot[..i])|
        invariant playerBullets == Fly(Player, snapshot[..i]) + snapshot[i..]
      {
        FlyStep(Player, snapshot, i, playerBullets);
        var b := playerBullets[live];
        b := Pos(b.x, b.y + PlayerBulletSpeed);
        playerBullets := playerBullets[live := b];
        if !InField(Player, b) {
          playerBullets := playerBullets[..live] + playerBullets[live + 1..];
        } else {
          live := live + 1;
        }
        i := i + 1;
      }
      assert snapshot[..i] == snapshot;
    }

    /** Moves every enemy bullet down and removes those past the bottom border,
        walking a snapshot of the list while removing from the live one. */
    method AdvanceEnemyBullets()
      modifies this`enemyBullets
      ensures enemyBullets == Fly(Enemy, old(enemyBullets))
    {
      var snapshot := enemyBullets;
      var i, live := 0, 0;
      while i < |snapshot|
        invariant 0 <= i <= |snapshot|
        invariant live == |Fly(Enemy, snapshot[..i])|
        invariant enemyBullets == Fly(Enemy, snapshot[..i]) + snapshot[i..]
      {
        FlyStep(Enemy, snapshot, i, enemyBullets);
        var b := enemyBullets[live];
        b := Pos(b.x, b.y - EnemyBulletSpeed);
        enemyBullets := enemyBullets[live := b];
        if !InField(Enemy, b) {
          enemyBullets := enemyBullets[..live] + enemyBullets[live + 1..];
        } else {
          live := live + 1;
        }
        i := i + 1;
      }
      assert snapshot[..i] == snapshot;
    }

    /** Every enemy falls and may drift by its flag; then its flag is bounced at a side border
        or may be inverted, judged on the x it had before moving. `drift[i]` and `invert[i]`
        are enemy i's random draws. */
    method StepEnemies(drift: seq<bool>, invert: seq<bool>)
      requires |enemies| <= |enemyMoves| && |drift| == |enemies| && |invert| == |enemies|
      modifies this`enemies, this`enemyMoves
      ensures enemies == Marched(old(enemies), old(enemyMoves), drift)
      ensures enemyMoves == Steered(old(enemies), old(enemyMoves), invert)
      ensures old(Valid()) ==> Valid()
      ensures old(Banded()) ==> Banded()
    {
      var i := 0;
      while i < |enemies|
        invariant 0 <= i <= |enemies| == |old(enemies)|
        invariant |enemyMoves| == |old(enemyMoves)|
        invariant forall k :: 0 <= k < i ==>
          enemies[k] == Drifted(old(enemies)[k], old(enemyMoves)[k], drift[k])
          && enemyMoves[k] == NextFlag(old(enemies)[k].x, old(enemyMoves)[k], invert[k])
        invariant forall k :: i <= k < |enemies| ==> enemies[k] == old(enemies)[k]
        invariant forall k :: i <= k < |enemyMoves| ==> enemyMoves[k] == old(enemyMoves)[k]
      {
        var x, y := enemies[i].x, enemies[i].y;
        var p := Pos(x, y - EnemyFallSpeed);
        if drift[i] {
          if enemyMoves[i] == 0 {
            p := Pos(p.x - EnemyDriftStep, p.y);
          } else {
            p := Pos(p.x + EnemyDriftStep, p.y);
          }
        }
        enemies := enemies[i := p];
        if x >= BorderX {
          enemyMoves := enemyMoves[i := 0];
        } else if x <= -BorderX {
          enemyMoves := enemyMoves[i := 1];
        } else if invert[i] {
          enemyMoves := enemyMoves[i := 1 - enemyMoves[i]];
        }
        i := i + 1;
      }
      if old(Banded()) {
        MarchStaysInBand(old(enemies), old(enemyMoves), drift, invert);
      }
    }

    /** Every enemy whose draw `fire[i]` is true fires one bullet from just below itself. */
    method EnemiesFire(fire: seq<bool>)
      requires |fire| == |enemies|
      modifies this`enemyBullets
      ensures enemyBullets == old(enemyBullets) + Volley(enemies, fire)
    {
      var i := 0;
      while i < |enemies|
        invariant 0 <= i <= |enemies|
        invariant enemyBullets == old(enemyBullets) + Volley(enemies[..i], fire[..i])
      {
        assert enemies[..i + 1][..i] == enemies[..i] && fire[..i + 1][..i] == fire[..i];
        if fire[i] {
          enemyBullets := enemyBullets + [Pos(enemies[i].x, enemies[i].y - BulletSpawnOffset)];
        }
        i := i + 1;
      }
      assert enemies[..i] == enemies && fire[..i] == fire;
    }

    /** The inner scan of the collision pass for one bullet `b`, which sits at index `at` of the
        live bullet list, right after the bullets `done.bullets` kept so far: the first enemy, in list
        order, whose box holds `b` is removed together with the bullet, and the scan stops there. */
    method StrikeFirst(b: Pos, at: nat, ghost done: Field, ghost rest: seq<Pos>) returns (kept: nat, ghost next: Field)
      requires playerBullets == done.bullets + [b] + rest && enemies == done.enemies && at == |done.bullets|
      modifies this`playerBullets, this`enemies
      ensures next == Strike(b, done)
      ensures playerBullets == next.bullets + rest && enemies == next.enemies && kept == |next.bullets|
      ensures |enemies| <= |done.enemies|
    {
      var j := 0;
      while j < |enemies|
        invariant 0 <= j <= |enemies|
        invariant enemies == old(enemies) && playerBullets == old(playerBullets)
        invariant forall k :: 0 <= k < j ==> !InEnemyBox(b, enemies[k])
      {
        var e := enemies[j];
        if InEnemyBox(b, e) {
          StrikeHit(b, done, j);
          RemoveAfter(done.bullets, b, rest);
          playerBullets := playerBullets[..at] + playerBullets[at + 1..];
          enemies := enemies[..j] + enemies[j + 1..];
          kept, next := at, Field(done.bullets, enemies);
          return;
        }
        j := j + 1;
      }
      StrikeMiss(b, done);
      kept, next := at + 1, Field(done.bullets + [b], enemies);
    }

    /** For each player bullet, taken from a snapshot, removes it and the first enemy whose box
        holds it (see StrikeFirst). Flags are left as they are. */
    method ResolvePlayerBullets()
      modifies this`playerBullets, this`enemies
      ensures playerBullets == Resolve(old(playerBullets), old(enemies)).bullets
      ensures enemies == Resolve(old(playerBullets), old(enemies)).enemies
      ensures |enemies| <= old(|enemies|)
    {
      var snapshot := playerBullets;
      var i, live := 0, 0;
      ghost var done := Field([], enemies);
      while i < |snapshot|
        invariant 0 <= i <= |snapshot|
        invariant done == Resolve(snapshot[..i], old(enemies))
        invariant live == |done.bullets|
        invariant playerBullets == done.bullets + snapshot[i..]
        invariant enemies == done.enemies
        invariant |enemies| <= |old(enemies)|
      {
        ResolveSnoc(snapshot, i, old(enemies));
        SplitAt(snapshot, i);
        live, done := StrikeFirst(snapshot[i], live, done, snapshot[i + 1..]);
        i := i + 1;
      }
      assert snapshot[..i] == snapshot;
    }

    /** The terminal checks of the main loop, in their order; each announced condition is appended. */
    method CheckEndings() returns (endings: seq<Ending>)
      ensures endings == Endings(player, enemies, enemyBullets)
    {
      endings := [];
      if TouchesEnemy(player, enemies) == 1 {
        endings := endings + [DirectCollision];
      }
      if HitByEnemyFire(player, enemyBullets) == 1 {
        endings := endings + [HitByFire];
      }
      if ReachedBottom(enemies) == 1 {
        endings := endings + [EnemyAtBottom];
      }
      if |enemies| == 0 {
        endings := endings + [Victory];
      }
    }

    /** The movement half of a frame: player bullets, enemies, enemy fire and enemy bullets, in
        the main loop's order. `drift`, `invert` and `fire` hold each enemy's random draws. */
    method MoveEverything(drift: seq<bool>, invert: seq<bool>, fire: seq<bool>)
      requires |enemies| <= |enemyMoves|
      requires |drift| == |enemies| && |invert| == |enemies| && |fire| == |enemies|
      modifies this`playerBullets, this`enemies, this`enemyMoves, this`enemyBullets
      ensures playerBullets == Fly(Player, old(playerBullets))
      ensures enemies == Marched(old(enemies), old(enemyMoves), drift)
      ensures enemyMoves == Steered(old(enemies), old(enemyMoves), invert)
      ensures enemyBullets == Fly(Enemy, old(enemyBullets) + Volley(enemies, fire))
      ensures old(Valid()) ==> Valid()
    {
      AdvancePlayerBullets();
      StepEnemies(drift, invert);
      EnemiesFire(fire);
      AdvanceEnemyBullets();
    }

    /** One frame of the main loop: everything moves, player bullets hit, then the terminal checks
        run and the frame counter advances. Score is never touched. */
    method Tick(drift: seq<bool>, invert: seq<bool>, fire: seq<bool>) returns (endings: seq<Ending>)
      requires |enemies| <= |enemyMoves|
      requires |drift| == |enemies| && |invert| == |enemies| && |fire| == |enemies|
      modifies this
      ensures var marched := Marched(old(enemies), old(enemyMoves), drift);
        var f := Resolve(Fly(Player, old(playerBullets)), marched);
        playerBullets == f.bullets && enemies == f.enemies
        && enemyMoves == Steered(old(enemies), old(enemyMoves), invert)
        && enemyBullets == Fly(Enemy, old(enemyBullets) + Volley(marched, fire))
      ensures player == old(player) && score == old(score) && frame == old(frame) + 1
      ensures endings == Endings(player, enemies, enemyBullets)
      ensures |enemies| <= old(|enemies|) <= |enemyMoves| == old(|enemyMoves|)
      ensures old(Valid()) ==> Valid()
    {
      MoveEverything(drift, invert, fire);
      ResolvePlayerBullets();
      endings := CheckEndings();
      frame := frame + 1;
    }
  }

  /** The collision pass removes an enemy but not its flag, so the enemies after it read the flag of
      their predecessor. An enemy one drift step past the right border, paired with the flag 0 that
      takes it back, is paired with flag 1 once the enemy before it is shot, and the next step
      carries it two full drift steps past the border, out of the band. */
  lemma RemovalShiftsFlags()
    ensures var es, flags := [Pos(0.0, 0.0), Pos(282.0, 0.0)], [1, 0];
      var f := Resolve([Pos(0.0, 0.0)], es);
      InBand(es[0].x, flags[0]) && InBand(es[1].x, flags[1])
      && f.enemies == [Pos(282.0, 0.0)] && f.bullets == []
      && !InBand(f.enemies[0].x, flags[0])
      && Marched(f.enemies, flags, [true])[0].x == BorderX + 2.0 * EnemyDriftStep
  {
    assert (0.0).Floor == 0 && (282.0).Floor == 282;
    var es := [Pos(0.0, 0.0), Pos(282.0, 0.0)];
    assert InEnemyBox(Pos(0.0, 0.0), es[0]);
    assert FirstHit(Pos(0.0, 0.0), es) == Some(0);
    assert [Pos(0.0, 0.0)][..0] == [];
  }
}
