/** Collision detection: player bullets against enemies (resolved by removal), and the read-only
    checks of the player's hit box against enemy bullets, enemies and the bottom border. */
module Collision {
  import opened Config
  import opened Seqs

  /** The bullet point `b` lies in the closed square hit box of the enemy at `e`. */
  predicate InEnemyBox(b: Pos, e: Pos)
  {
    e.x - EnemySize / 2.0 <= b.x <= e.x + EnemySize / 2.0 && e.y - EnemySize / 2.0 <= b.y <= e.y + EnemySize / 2.0
  }

  /** The point `q` lies in the closed square hit box of the player at `p`. */
  predicate InPlayerBox(p: Pos, q: Pos)
  {
    p.x - PlayerHalfBox <= q.x <= p.x + PlayerHalfBox && p.y - PlayerHalfBox <= q.y <= p.y + PlayerHalfBox
  }

  /** The index of the first enemy, in list order, whose box holds the bullet `b`. */
  function FirstHit(b: Pos, es: seq<Pos>): (r: Option<nat>)
    ensures r.Some? ==> r.value < |es|
    decreases |es|
  {
    if es == [] then None
    else if InEnemyBox(b, es[0]) then Some(0)
    else match FirstHit(b, es[1..])
      case None => None
      case Some(j) => Some(j + 1)
  }

  /** FirstHit finds an enemy whose box holds the bullet, none before it does, and it finds
      nothing exactly when no enemy's box holds the bullet. */
  lemma {:induction false} FirstHitIsFirst(b: Pos, es: seq<Pos>)
    ensures var r := FirstHit(b, es);
      (r.Some? ==> InEnemyBox(b, es[r.value]) && forall k :: 0 <= k < r.value ==> !InEnemyBox(b, es[k]))
      && (r.None? <==> forall k :: 0 <= k < |es| ==> !InEnemyBox(b, es[k]))
    decreases |es|
  {
    if es != [] && !InEnemyBox(b, es[0]) {
      FirstHitIsFirst(b, es[1..]);
      forall k | 1 <= k < |es|
        ensures es[k] == es[1..][k - 1]
      {
      }
    }
  }

  /** The player bullets kept so far and the enemies still alive, part way through a collision pass. */
  datatype Field = Field(bullets: seq<Pos>, enemies: seq<Pos>)

  /** One bullet against the enemies still alive: it and the first enemy it hits are both removed;
      a bullet that hits nothing is kept. */
  function Strike(b: Pos, f: Field): Field
  {
    match FirstHit(b, f.enemies)
    case None => Field(f.bullets + [b], f.enemies)
    case Some(j) => Field(f.bullets, Without(f.enemies, j))
  }

  /** The collision pass: the bullets `bs` taken front to back against the enemies `es`. */
  function Resolve(bs: seq<Pos>, es: seq<Pos>): Field
    decreases |bs|
  {
    if bs == [] then Field([], es)
    else Strike(bs[|bs| - 1], Resolve(bs[..|bs| - 1], es))
  }

  /** A bullet that hits no enemy is kept and changes nothing. */
  lemma StrikeMiss(b: Pos, f: Field)
    requires forall k :: 0 <= k < |f.enemies| ==> !InEnemyBox(b, f.enemies[k])
    ensures Strike(b, f) == Field(f.bullets + [b], f.enemies)
  {
    FirstHitIsFirst(b, f.enemies);
  }

  /** A bullet whose first hit is enemy `j` removes exactly that enemy and is not kept itself. */
  lemma StrikeHit(b: Pos, f: Field, j: nat)
    requires j < |f.enemies| && InEnemyBox(b, f.enemies[j])
    requires forall k :: 0 <= k < j ==> !InEnemyBox(b, f.enemies[k])
    ensures Strike(b, f) == Field(f.bullets, f.enemies[..j] + f.enemies[j + 1..])
  {
    FirstHitIsFirst(b, f.enemies);
  }

  /** The pass over one more bullet is one more strike. */
  lemma ResolveSnoc(bs: seq<Pos>, i: nat, es: seq<Pos>)
    requires i < |bs|
    ensures Resolve(bs[..i + 1], es) == Strike(bs[i], Resolve(bs[..i], es))
  {
    assert bs[..i + 1][..i] == bs[..i];
  }

  /** Every removed bullet takes exactly one enemy with it. */
  lemma {:induction false} ResolveBalanced(bs: seq<Pos>, es: seq<Pos>)
    ensures var f := Resolve(bs, es);
      |f.bullets| <= |bs| && |bs| - |f.bullets| == |es| - |f.enemies|
    decreases |bs|
  {
    if bs != [] {
      ResolveBalanced(bs[..|bs| - 1], es);
    }
  }

  /** Survivors of both kinds keep their relative order: each list is the old one with some
      elements left out. */
  lemma {:induction false} ResolveKeepsOrder(bs: seq<Pos>, es: seq<Pos>)
    ensures IsSubseq(Resolve(bs, es).bullets, bs) && IsSubseq(Resolve(bs, es).enemies, es)
    decreases |bs|
  {
    if bs == [] {
      SubseqRefl(es);
    } else {
      var bs', b := bs[..|bs| - 1], bs[|bs| - 1];
      var f := Resolve(bs', es);
      ResolveKeepsOrder(bs', es);
      SubseqExtend(f.bullets, bs', b);
      assert bs' + [b] == bs;
      match FirstHit(b, f.enemies)
      case None =>
      case Some(j) =>
        SubseqWithout(f.enemies, j);
        SubseqTrans(Without(f.enemies, j), f.enemies, es);
    }
  }

  /** No bullet of `f` lies in the box of an enemy of `f`. */
  predicate Settled(f: Field)
  {
    forall i, k :: 0 <= i < |f.bullets| && 0 <= k < |f.enemies| ==> !InEnemyBox(f.bullets[i], f.enemies[k])
  }

  /** After the pass no kept bullet lies in the box of an enemy still alive. */
  lemma {:induction false} ResolveLeavesNoHit(bs: seq<Pos>, es: seq<Pos>)
    ensures Settled(Resolve(bs, es))
    decreases |bs|
  {
    if bs != [] {
      var bs', b := bs[..|bs| - 1], bs[|bs| - 1];
      var f := Resolve(bs', es);
      var g := Resolve(bs, es);
      assert g == Strike(b, f);
      ResolveLeavesNoHit(bs', es);
      FirstHitIsFirst(b, f.enemies);
      match FirstHit(b, f.enemies)
      case None =>
        assert g == Field(f.bullets + [b], f.enemies);
        forall i, k | 0 <= i < |g.bullets| && 0 <= k < |g.enemies|
          ensures !InEnemyBox(g.bullets[i], g.enemies[k])
        {
          assert g.enemies[k] == f.enemies[k];
          if i < |f.bullets| {
            assert g.bullets[i] == f.bullets[i];
            assert !InEnemyBox(f.bullets[i], f.enemies[k]);
          } else {
            assert g.bullets[i] == b;
            assert !InEnemyBox(b, f.enemies[k]);
          }
        }
      case Some(j) =>
        assert g == Field(f.bullets, Without(f.enemies, j));
        forall i, k | 0 <= i < |g.bullets| && 0 <= k < |g.enemies|
          ensures !InEnemyBox(g.bullets[i], g.enemies[k])
        {
          assert g.bullets[i] == f.bullets[i];
          var k' := if k < j then k else k + 1;
          assert g.enemies[k] == f.enemies[k'];
          assert !InEnemyBox(f.bullets[i], f.enemies[k']);
        }
    }
  }

  /** Whether an enemy bullet lies in the player's box (1) or none does (0). */
  function HitByEnemyFire(player: Pos, enemyBullets: seq<Pos>): (r: int)
    ensures r == 0 || r == 1
    ensures r == 1 <==> exists i :: 0 <= i < |enemyBullets| && InPlayerBox(player, enemyBullets[i])
    decreases |enemyBullets|
  {
    if enemyBullets == [] then 0
    else if InPlayerBox(player, enemyBullets[0]) then 1
    else HitByEnemyFire(player, enemyBullets[1..])
  }

  /** Whether some enemy has reached the bottom border (1) or none has (0). */
  function ReachedBottom(enemies: seq<Pos>): (r: int)
    ensures r == 0 || r == 1
    ensures r == 1 <==> exists i :: 0 <= i < |enemies| && enemies[i].y <= -BorderY
    decreases |enemies|
  {
    if enemies == [] then 0
    else if enemies[0].y <= -BorderY then 1
    else ReachedBottom(enemies[1..])
  }

  /** Whether some enemy's position lies in the player's box (1) or none does (0). */
  function TouchesEnemy(player: Pos, enemies: seq<Pos>): (r: int)
    ensures r == 0 || r == 1
    ensures r == 1 <==> exists i :: 0 <= i < |enemies| && InPlayerBox(player, enemies[i])
    decreases |enemies|
  {
    if enemies == [] then 0
    else if InPlayerBox(player, enemies[0]) then 1
    else TouchesEnemy(player, enemies[1..])
  }
}
