/** Movement of the player (on command) and of both kinds of bullet (every tick). */
module Movement {
  import opened Config
  import Seqs

  /** Who fired a bullet: player bullets fly up, enemy bullets fly down. */
  datatype Side = Player | Enemy

  /** Vertical displacement of a bullet in one tick. */
  function Speed(side: Side): real
  {
    if side == Player then PlayerBulletSpeed else -EnemyBulletSpeed
  }

  /** A bullet is kept as long as it has not passed the border it flies towards. */
  predicate InField(side: Side, p: Pos)
  {
    if side == Player then p.y <= BorderY else -BorderY <= p.y
  }

  /** A bullet after one tick of flight. */
  function Flown(side: Side, b: Pos): Pos
  {
    Pos(b.x, b.y + Speed(side))
  }

  /** The bullet list after one advance-and-cull pass, the bullets taken front to back. */
  function Fly(side: Side, bs: seq<Pos>): seq<Pos>
    decreases |bs|
  {
    if bs == [] then []
    else
      var rest := Fly(side, bs[..|bs| - 1]);
      var b := Flown(side, bs[|bs| - 1]);
      if InField(side, b) then rest + [b] else rest
  }

  /** The pass treats each bullet on its own: flying a concatenation flies each part. */
  lemma {:induction false} FlyDistributes(side: Side, a: seq<Pos>, b: seq<Pos>)
    ensures Fly(side, a + b) == Fly(side, a) + Fly(side, b)
    decreases |b|
  {
    if b == [] {
      assert a + b == a;
    } else {
      var b' := b[..|b| - 1];
      assert (a + b)[..|a + b| - 1] == a + b';
      FlyDistributes(side, a, b');
    }
  }

  /** A lone bullet is moved by exactly its speed and kept iff it is still in the field. */
  lemma FlyOne(side: Side, b: Pos)
    ensures Fly(side, [b]) == if InField(side, Flown(side, b)) then [Pos(b.x, b.y + Speed(side))] else []
  {
    assert [b][..0] == [];
  }

  /** One iteration of the in-place pass: with the first `i` bullets of `snapshot` done, the live list
      holds the survivors so far followed by the untouched bullets; moving the next one and removing it
      if it left the field yields the same shape with `i + 1` bullets done. */
  lemma FlyStep(side: Side, snapshot: seq<Pos>, i: nat, live: seq<Pos>)
    requires i < |snapshot| && live == Fly(side, snapshot[..i]) + snapshot[i..]
    ensures var k := |Fly(side, snapshot[..i])|;
      k < |live| && live[k] == snapshot[i]
      && var b := Flown(side, live[k]);
      (InField(side, b) ==> live[k := b] == Fly(side, snapshot[..i + 1]) + snapshot[i + 1..])
      && (!InField(side, b) ==> live[k := b][..k] + live[k := b][k + 1..] == Fly(side, snapshot[..i + 1]) + snapshot[i + 1..])
  {
    var done, rest := Fly(side, snapshot[..i]), snapshot[i + 1..];
    assert snapshot[..i + 1][..i] == snapshot[..i];
    assert snapshot[i..] == [snapshot[i]] + rest;
    assert live == done + [snapshot[i]] + rest;
    var b := Flown(side, snapshot[i]);
    Seqs.ReplaceAfter(done, snapshot[i], rest, b);
    Seqs.RemoveAfter(done, b, rest);
  }

  /** The survivors are exactly the moved bullets that are still in the field. */
  lemma {:induction false} FlyMembers(side: Side, bs: seq<Pos>, p: Pos)
    ensures p in Fly(side, bs) <==> exists i :: 0 <= i < |bs| && p == Flown(side, bs[i]) && InField(side, p)
    decreases |bs|
  {
    if bs != [] {
      var bs' := bs[..|bs| - 1];
      FlyMembers(side, bs', p);
      if p in Fly(side, bs') {
        var i :| 0 <= i < |bs'| && p == Flown(side, bs'[i]) && InField(side, p);
        assert bs[i] == bs'[i];
      }
      if exists i :: 0 <= i < |bs| && p == Flown(side, bs[i]) && InField(side, p) {
        var i :| 0 <= i < |bs| && p == Flown(side, bs[i]) && InField(side, p);
        if i < |bs'| {
          assert bs'[i] == bs[i];
        }
      }
    }
  }

  /** No bullet is lost iff every bullet is still in the field after moving; then the list keeps its length. */
  lemma {:induction false} FlyKeepsAll(side: Side, bs: seq<Pos>)
    ensures |Fly(side, bs)| <= |bs|
    ensures |Fly(side, bs)| == |bs| <==> forall i :: 0 <= i < |bs| ==> InField(side, Flown(side, bs[i]))
    decreases |bs|
  {
    if bs != [] {
      var bs' := bs[..|bs| - 1];
      FlyKeepsAll(side, bs');
      assert forall i :: 0 <= i < |bs'| ==> bs'[i] == bs[i];
    }
  }

  /** The player's x after a move-left command: one step left unless already at the left border. */
  function LeftOf(x: real): real
  {
    if x > -BorderX then x - PlayerSpeed as real else x
  }

  /** The player's x after a move-right command: one step right unless already at the right border. */
  function RightOf(x: real): real
  {
    if x < BorderX then x + PlayerSpeed as real else x
  }

  /** The x positions reachable from the start position: whole multiples of the step within the borders. */
  predicate OnTrack(x: real)
  {
    -BorderX <= x <= BorderX && x == x.Floor as real && x.Floor % PlayerSpeed == 0
  }

  /** The border is a whole number of steps from the centre, so no command can carry the player past it. */
  lemma CommandsStayOnTrack(x: real)
    requires OnTrack(x)
    ensures OnTrack(LeftOf(x)) && OnTrack(RightOf(x))
    ensures LeftOf(x) == x <==> x == -BorderX
    ensures RightOf(x) == x <==> x == BorderX
  {
    var n := x.Floor;
    assert BorderX == 280.0;
    assert n % 20 == 0;
    assert -280 <= n <= 280;
    if x > -BorderX {
      assert n - 20 >= -280;
      assert (x - 20.0).Floor == n - 20;
      assert (n - 20) % 20 == 0;
    }
    if x < BorderX {
      assert n + 20 <= 280;
      assert (x + 20.0).Floor == n + 20;
      assert (n + 20) % 20 == 0;
    }
  }

  lemma StartOnTrack()
    ensures OnTrack(PlayerStartX)
  {
  }
}
