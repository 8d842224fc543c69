/** The end-of-tick checks: which terminal conditions hold, in the order the game loop tests them. */
module Outcome {
  import opened Config
  import opened Collision

  /** The terminal conditions the game loop announces. */
  datatype Ending = DirectCollision | HitByFire | EnemyAtBottom | Victory

  /** The terminal conditions that hold for the state after a tick, in the order they are tested.
      Every condition that holds is announced, in this order; the first announcement closes the
      window but the loop does not stop there. An empty list means play goes on. */
  function Endings(player: Pos, enemies: seq<Pos>, enemyBullets: seq<Pos>): seq<Ending>
  {
    (if TouchesEnemy(player, enemies) == 1 then [DirectCollision] else [])
    + (if HitByEnemyFire(player, enemyBullets) == 1 then [HitByFire] else [])
    + (if ReachedBottom(enemies) == 1 then [EnemyAtBottom] else [])
    + (if |enemies| == 0 then [Victory] else [])
  }

  /** Play goes on iff no enemy or enemy bullet is in the player's box, no enemy is at the bottom
      and at least one enemy is left. */
  lemma PlayGoesOn(player: Pos, enemies: seq<Pos>, enemyBullets: seq<Pos>)
    ensures Endings(player, enemies, enemyBullets) == [] <==>
      (forall i :: 0 <= i < |enemies| ==> !InPlayerBox(player, enemies[i]) && enemies[i].y > -BorderY)
      && (forall i :: 0 <= i < |enemyBullets| ==> !InPlayerBox(player, enemyBullets[i]))
      && enemies != []
  {
  }

  /** Victory is announced iff the enemy list is empty, and it is always the last announcement. */
  lemma VictoryIffNoEnemies(player: Pos, enemies: seq<Pos>, enemyBullets: seq<Pos>)
    ensures var r := Endings(player, enemies, enemyBullets);
      (Victory in r <==> enemies == []) && (Victory in r ==> r[|r| - 1] == Victory)
  {
  }

  /** With no enemy left only enemy fire can be announced before the victory: a hit that lands on the
      tick the last enemy dies is announced first, and the victory is announced after it. */
  lemma EmptyWave(player: Pos, enemyBullets: seq<Pos>)
    ensures Endings(player, [], enemyBullets) ==
      (if HitByEnemyFire(player, enemyBullets) == 1 then [HitByFire, Victory] else [Victory])
  {
  }

  /** The direct-collision announcement, when made, comes first. */
  lemma DirectCollisionFirst(player: Pos, enemies: seq<Pos>, enemyBullets: seq<Pos>)
    requires exists i :: 0 <= i < |enemies| && InPlayerBox(player, enemies[i])
    ensures Endings(player, enemies, enemyBullets)[0] == DirectCollision
  {
  }
}
