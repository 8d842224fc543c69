/** The enemy formation: how it is laid out, how each enemy falls and drifts, and where enemies fire from. */
module Wave {
  import opened Config

  /** The position of the enemy in row `row`, column `col` of a fresh formation. */
  function Slot(row: nat, col: nat): Pos
  {
    Pos(EnemyStartX - col as real * EnemySpacingX, EnemyStartY - row as real * EnemySpacingY)
  }

  /** One row of the formation, column 0 first (the rightmost enemy). */
  function Row(row: nat): seq<Pos>
  {
    seq(EnemyCols, col requires 0 <= col < EnemyCols => Slot(row, col))
  }

  /** The first `rows` rows of the formation, in row-major order. */
  function Rows(rows: nat): seq<Pos>
  {
    if rows == 0 then [] else Rows(rows - 1) + Row(rows - 1)
  }

  /** The enemies a fresh game places, in the order they are created. */
  function Formation(): seq<Pos>
  {
    Rows(EnemyRows)
  }

  /** A direction flag drawn by one fair coin: 0 moves left, 1 moves right. */
  function Coin(heads: bool): int
  {
    if heads then 1 else 0
  }

  /** The direction flags a fresh formation gets, one coin per enemy. */
  function InitialFlags(coins: seq<bool>): seq<int>
  {
    seq(|coins|, k requires 0 <= k < |coins| => Coin(coins[k]))
  }

  /** Placing the next enemy of a row extends the placed part of that row by its slot. */
  lemma RowSnoc(row: nat, col: nat)
    requires col < EnemyCols
    ensures Row(row)[..col + 1] == Row(row)[..col] + [Slot(row, col)]
  {
  }

  /** Drawing one more coin appends its flag. */
  lemma FlagsSnoc(coins: seq<bool>, n: nat)
    requires n < |coins|
    ensures InitialFlags(coins[..n + 1]) == InitialFlags(coins[..n]) + [Coin(coins[n])]
  {
    assert coins[..n + 1][n] == coins[n];
  }

  /** Enemy number `row * EnemyCols + col` sits in row `row`, column `col`. */
  lemma {:induction false} RowsAt(rows: nat, row: nat, col: nat)
    requires row < rows && col < EnemyCols
    ensures |Rows(rows)| == rows * EnemyCols
    ensures Rows(rows)[row * EnemyCols + col] == Slot(row, col)
  {
    RowsLength(rows - 1);
    if row < rows - 1 {
      RowsAt(rows - 1, row, col);
    } else {
      assert row * EnemyCols == |Rows(rows - 1)|;
    }
  }

  lemma {:induction false} RowsLength(rows: nat)
    ensures |Rows(rows)| == rows * EnemyCols
  {
    if rows > 0 {
      RowsLength(rows - 1);
    }
  }

  /** The formation has ROWS x COLS enemies, laid out row-major from the anchor. */
  lemma FormationLayout()
    ensures |Formation()| == EnemyRows * EnemyCols == 30
    ensures forall row, col :: 0 <= row < EnemyRows && 0 <= col < EnemyCols ==>
      Formation()[row * EnemyCols + col] == Slot(row, col)
  {
    RowsLength(EnemyRows);
    forall row, col | 0 <= row < EnemyRows && 0 <= col < EnemyCols
      ensures Formation()[row * EnemyCols + col] == Slot(row, col)
    {
      RowsAt(EnemyRows, row, col);
    }
  }

  /** Splits a formation index into its row and column without dividing. */
  lemma RowCol(k: nat) returns (row: nat, col: nat)
    requires k < EnemyRows * EnemyCols
    ensures row < EnemyRows && col < EnemyCols && k == row * EnemyCols + col
  {
    row := if k < 10 then 0 else if k < 20 then 1 else 2;
    col := k - 10 * row;
  }

  /** Different grid cells are different positions. */
  lemma SlotInjective(r1: nat, c1: nat, r2: nat, c2: nat)
    requires r1 != r2 || c1 != c2
    ensures Slot(r1, c1) != Slot(r2, c2)
  {
    assert EnemySpacingX == 60.0 && EnemySpacingY == 60.0;
    if c1 != c2 {
      assert Slot(r1, c1).x - Slot(r2, c2).x == 60.0 * (c2 as real - c1 as real);
    } else {
      assert Slot(r1, c1).y - Slot(r2, c2).y == 60.0 * (r2 as real - r1 as real);
    }
  }

  /** Every grid cell lies strictly between the side borders and below the top border. */
  lemma SlotInside(row: nat, col: nat)
    requires row < EnemyRows && col < EnemyCols
    ensures -BorderX < Slot(row, col).x < BorderX && Slot(row, col).y < BorderY
    ensures EvenWhole(Slot(row, col).x)
  {
    assert BorderX == 280.0 && BorderY == 440.0 && EnemyStartX == 268.0 && EnemyStartY == 408.0;
    var n := 268 - 60 * col;
    assert n == 2 * (134 - 30 * col);
    assert Slot(row, col).x == n as real;
    assert Slot(row, col).y == 408.0 - 60.0 * row as real;
  }

  /** Two different enemies of a fresh formation are at different positions. */
  lemma FormationPair(a: nat, b: nat)
    requires a < b < EnemyRows * EnemyCols
    ensures |Formation()| == EnemyRows * EnemyCols && Formation()[a] != Formation()[b]
  {
    RowsLength(EnemyRows);
    var ra, ca := RowCol(a);
    var rb, cb := RowCol(b);
    assert a == ra * EnemyCols + ca && b == rb * EnemyCols + cb;
    assert ra != rb || ca != cb;
    RowsAt(EnemyRows, ra, ca);
    RowsAt(EnemyRows, rb, cb);
    SlotInjective(ra, ca, rb, cb);
  }

  /** No two enemies of a fresh formation share a position. */
  lemma FormationDistinct()
    ensures forall a, b :: 0 <= a < b < |Formation()| ==> Formation()[a] != Formation()[b]
  {
    RowsLength(EnemyRows);
    forall a, b | 0 <= a < b < |Formation()|
      ensures Formation()[a] != Formation()[b]
    {
      FormationPair(a, b);
    }
  }

  /** A fresh formation lies strictly inside the side borders and below the top border, at even
      whole x. */
  lemma FormationInside()
    ensures forall k :: 0 <= k < |Formation()| ==>
      -BorderX < Formation()[k].x < BorderX && Formation()[k].y < BorderY && EvenWhole(Formation()[k].x)
  {
    RowsLength(EnemyRows);
    forall k | 0 <= k < |Formation()|
      ensures -BorderX < Formation()[k].x < BorderX && Formation()[k].y < BorderY && EvenWhole(Formation()[k].x)
    {
      var row, col := RowCol(k);
      RowsAt(EnemyRows, row, col);
      SlotInside(row, col);
    }
  }

  /** An enemy after one tick: it falls, and if it drifts, it moves one step in its flag's direction. */
  function Drifted(e: Pos, flag: int, drift: bool): Pos
  {
    var fallen := Pos(e.x, e.y - EnemyFallSpeed);
    if !drift then fallen
    else if flag == 0 then Pos(fallen.x - EnemyDriftStep, fallen.y)
    else Pos(fallen.x + EnemyDriftStep, fallen.y)
  }

  /** An enemy's flag after one tick, judged on its x before the move: bounced at a border, else maybe inverted. */
  function NextFlag(x: real, flag: int, invert: bool): int
  {
    if x >= BorderX then 0
    else if x <= -BorderX then 1
    else if invert then 1 - flag
    else flag
  }

  /** The enemies after one step: enemy i moves by its own flag and drift draw. */
  function Marched(es: seq<Pos>, flags: seq<int>, drift: seq<bool>): seq<Pos>
    requires |es| <= |flags| && |drift| == |es|
  {
    seq(|es|, i requires 0 <= i < |es| => Drifted(es[i], flags[i], drift[i]))
  }

  /** The flags after one step: the first |es| are updated, the rest are left alone. */
  function Steered(es: seq<Pos>, flags: seq<int>, invert: seq<bool>): seq<int>
    requires |es| <= |flags| && |invert| == |es|
  {
    seq(|flags|, i requires 0 <= i < |flags| => if i < |es| then NextFlag(es[i].x, flags[i], invert[i]) else flags[i])
  }

  /** Every enemy falls by exactly the fall speed; it moves sideways by a drift step or not at all,
      leftward exactly when its flag was 0. */
  lemma StepDeltas(e: Pos, flag: int, drift: bool)
    ensures Drifted(e, flag, drift).y == e.y - EnemyFallSpeed
    ensures var dx := Drifted(e, flag, drift).x - e.x;
      (dx == 0.0 <==> !drift) && (dx < 0.0 <==> drift && flag == 0) && (dx == 0.0 || dx == EnemyDriftStep || dx == -EnemyDriftStep)
  {
  }

  /** A flag in {0, 1} stays in {0, 1}; at a border it points back inwards. */
  lemma FlagStaysBinary(x: real, flag: int, invert: bool)
    requires flag == 0 || flag == 1
    ensures var f := NextFlag(x, flag, invert); f == 0 || f == 1
    ensures x >= BorderX ==> NextFlag(x, flag, invert) == 0
    ensures x <= -BorderX ==> NextFlag(x, flag, invert) == 1
    ensures -BorderX < x < BorderX ==> (NextFlag(x, flag, invert) == flag <==> !invert)
  {
  }

  /** An x the formation can reach: a whole, even number (grid columns are 60 apart, drift steps 2). */
  predicate EvenWhole(x: real)
  {
    x == x.Floor as real && x.Floor % 2 == 0
  }

  /** The band an enemy stays in: an even whole x at most one drift step outside the side borders,
      and at that outermost x the flag already points back inwards. */
  predicate InBand(x: real, flag: int)
  {
    EvenWhole(x)
    && -BorderX - EnemyDriftStep <= x <= BorderX + EnemyDriftStep
    && (x == BorderX + EnemyDriftStep ==> flag == 0)
    && (x == -BorderX - EnemyDriftStep ==> flag == 1)
  }

  /** Moving by a whole even amount keeps x even and whole. */
  lemma EvenWholeShift(x: real, d: int)
    requires EvenWhole(x) && d % 2 == 0
    ensures EvenWhole(x + d as real) && (x + d as real).Floor == x.Floor + d
  {
  }

  /** One enemy step keeps an enemy in the band of its flag, whatever the draws. */
  lemma BandPreserved(e: Pos, flag: int, drift: bool, invert: bool)
    requires InBand(e.x, flag)
    ensures InBand(Drifted(e, flag, drift).x, NextFlag(e.x, flag, invert))
  {
    assert BorderX == 280.0 && EnemyDriftStep == 2.0;
    EvenWholeShift(e.x, 2);
    EvenWholeShift(e.x, -2);
  }

  /** A step keeps every enemy of a formation in the band, as long as enemy i is paired with flag i. */
  lemma {:induction false} MarchStaysInBand(es: seq<Pos>, flags: seq<int>, drift: seq<bool>, invert: seq<bool>)
    requires |es| <= |flags| && |drift| == |es| && |invert| == |es|
    requires forall i :: 0 <= i < |es| ==> InBand(es[i].x, flags[i])
    ensures var es', flags' := Marched(es, flags, drift), Steered(es, flags, invert);
      forall i :: 0 <= i < |es'| ==> InBand(es'[i].x, flags'[i])
  {
    forall i | 0 <= i < |es|
      ensures InBand(Marched(es, flags, drift)[i].x, Steered(es, flags, invert)[i])
    {
      BandPreserved(es[i], flags[i], drift[i], invert[i]);
    }
  }

  /** A fresh formation starts in the band, whatever its flags. */
  lemma FormationInBand(coins: seq<bool>)
    requires |coins| == |Formation()|
    ensures forall k :: 0 <= k < |Formation()| ==> InBand(Formation()[k].x, InitialFlags(coins)[k])
  {
    FormationInside();
  }

  /** The bounce judges the x from before the move, so an enemy can end one drift step outside a
      border, and its flag then points back: from 278 heading right it drifts to 280, is bounced
      there, drifts on to 282, and its next drift takes it back to 280. */
  lemma OneStepOutside()
    ensures var e0, f0 := Pos(278.0, 0.0), 1;
      var e1, f1 := Drifted(e0, f0, true), NextFlag(e0.x, f0, false);
      var e2, f2 := Drifted(e1, f1, true), NextFlag(e1.x, f1, false);
      InBand(e0.x, f0) && e1.x == BorderX && f1 == 1
      && e2.x == BorderX + EnemyDriftStep && f2 == 0 && InBand(e2.x, f2)
      && Drifted(e2, f2, true).x == BorderX
  {
    assert (278.0).Floor == 278 && (282.0).Floor == 282;
  }

  /** The bullet an enemy fires starts just below it. */
  function Muzzle(e: Pos): Pos
  {
    Pos(e.x, e.y - BulletSpawnOffset)
  }

  /** The bullets one round of enemy fire adds, in enemy order; `fire[i]` is enemy i's draw. */
  function Volley(es: seq<Pos>, fire: seq<bool>): seq<Pos>
    requires |fire| == |es|
    decreases |es|
  {
    if es == [] then []
    else
      var rest := Volley(es[..|es| - 1], fire[..|es| - 1]);
      if fire[|es| - 1] then rest + [Muzzle(es[|es| - 1])] else rest
  }

  /** A volley holds one bullet per firing enemy, placed just below that enemy, and nothing else. */
  lemma {:induction false} VolleyMembers(es: seq<Pos>, fire: seq<bool>, p: Pos)
    requires |fire| == |es|
    ensures |Volley(es, fire)| <= |es|
    ensures p in Volley(es, fire) <==> exists i :: 0 <= i < |es| && fire[i] && p == Pos(es[i].x, es[i].y - BulletSpawnOffset)
    decreases |es|
  {
    if es != [] {
      var n := |es| - 1;
      var es', fire' := es[..n], fire[..n];
      VolleyMembers(es', fire', p);
      if p in Volley(es', fire') {
        var i :| 0 <= i < n && fire'[i] && p == Pos(es'[i].x, es'[i].y - BulletSpawnOffset);
        assert es[i] == es'[i] && fire[i] == fire'[i];
      }
      if exists i :: 0 <= i < |es| && fire[i] && p == Pos(es[i].x, es[i].y - BulletSpawnOffset) {
        var i :| 0 <= i < |es| && fire[i] && p == Pos(es[i].x, es[i].y - BulletSpawnOffset);
        if i < n {
          assert es'[i] == es[i] && fire'[i] == fire[i];
        }
      }
    }
  }

  /** The volley treats each enemy on its own: for a concatenation of enemies (and of their draws)
      it is the volley of the first part followed by the volley of the second, so every enemy's
      bullet lands in enemy order. */
  lemma {:induction false} VolleyDistributes(a: seq<Pos>, fa: seq<bool>, b: seq<Pos>, fb: seq<bool>)
    requires |fa| == |a| && |fb| == |b|
    ensures Volley(a + b, fa + fb) == Volley(a, fa) + Volley(b, fb)
    decreases |b|
  {
    if b == [] {
      assert a + b == a && fa + fb == fa;
    } else {
      var n := |b| - 1;
      assert (a + b)[..|a + b| - 1] == a + b[..n];
      assert (fa + fb)[..|fa + fb| - 1] == fa + fb[..n];
      VolleyDistributes(a, fa, b[..n], fb[..n]);
    }
  }

  /** The number of draws that fire. */
  function Fired(fire: seq<bool>): nat
    decreases |fire|
  {
    if fire == [] then 0 else Fired(fire[..|fire| - 1]) + (if fire[|fire| - 1] then 1 else 0)
  }

  /** A volley holds exactly one bullet per firing enemy. */
  lemma {:induction false} VolleyCount(es: seq<Pos>, fire: seq<bool>)
    requires |fire| == |es|
    ensures |Volley(es, fire)| == Fired(fire)
    decreases |es|
  {
    if es != [] {
      VolleyCount(es[..|es| - 1], fire[..|es| - 1]);
    }
  }

  /** When every enemy fires, the volley is one bullet under each enemy, in enemy order. */
  lemma {:induction false} FullVolley(es: seq<Pos>, fire: seq<bool>)
    requires |fire| == |es|
    requires forall i :: 0 <= i < |fire| ==> fire[i]
    ensures Volley(es, fire) == seq(|es|, i requires 0 <= i < |es| => Muzzle(es[i]))
    decreases |es|
  {
    if es != [] {
      FullVolley(es[..|es| - 1], fire[..|es| - 1]);
    }
  }
}
