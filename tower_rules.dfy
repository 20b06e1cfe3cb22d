/** Towers (`Torre`, `TorreAtaque`, `TorreCongelacion`) and the
    specification of `disparar`: a cooldown test, a first-match scan of the
    roster for a live enemy in range, and at most one new bullet. */
module TowerRules {
  import opened Common
  import opened EnemyRules
  import opened BulletRules

  /** The two tower classes. */
  datatype TowerKind = Ataque | Congelacion

  /** A tower's fields; only `balas` and `lastShotTime` ever change. */
  datatype Tower = Tower(kind: TowerKind, dano: int, rango: int, x: int, y: int,
                         shotInterval: int, balas: seq<Bala>, lastShotTime: int)

  /** Range of both kinds of tower. */
  const Rango: int := 200
  /** Damage of an attack tower (a freezing tower has 0). */
  const DanoAtaque: int := 20
  /** The divisor that turns the displacement to the target into a velocity. */
  const VelocityDivisor: int := 10
  /** Shot interval of the towers the attack button places, in ms. */
  const IntervaloAtaque: int := 1000
  /** Shot interval of the towers the freeze button places, in ms. */
  const IntervaloCongelacion: int := 2000

  /** The constructors of `TorreAtaque` and `TorreCongelacion`. */
  function NewTower(kind: TowerKind, x: int, y: int, shotInterval: int): Tower
  {
    Tower(kind, if kind == Ataque then DanoAtaque else 0, Rango, x, y, shotInterval, [], 0)
  }

  /** `Math.hypot(x - ex, y - ey) <= rango && enemigo.estaVivo()`. */
  predicate Qualifies(t: Tower, v: EnemyView)
  {
    SqDist(t.x, t.y, v.x, v.y) <= t.rango * t.rango && v.vivo
  }

  /** The index of the first enemy in roster order the tower may shoot. */
  function FirstTarget(t: Tower, vs: seq<EnemyView>): (r: Option<nat>)
    ensures r.Some? ==> r.value < |vs| && Qualifies(t, vs[r.value])
    ensures r.Some? ==> forall k :: 0 <= k < r.value ==> !Qualifies(t, vs[k])
    ensures r.None? ==> forall k :: 0 <= k < |vs| ==> !Qualifies(t, vs[k])
    decreases |vs|
  {
    if vs == [] then None
    else if Qualifies(t, vs[0]) then Some(0)
    else match FirstTarget(t, vs[1..])
      case None => None
      case Some(k) => Some(k + 1)
  }

  /** The bullet a tower fires at an enemy. */
  function Shot(t: Tower, v: EnemyView): (b: Bala)
    ensures b.x == t.x && b.y == t.y
    ensures Abs(b.dx * VelocityDivisor) <= Abs(v.x - t.x) < Abs(b.dx * VelocityDivisor) + VelocityDivisor
    ensures Abs(b.dy * VelocityDivisor) <= Abs(v.y - t.y) < Abs(b.dy * VelocityDivisor) + VelocityDivisor
    ensures b.dx * (v.x - t.x) >= 0 && b.dy * (v.y - t.y) >= 0
    ensures t.kind == Ataque ==> b.dano == t.dano && !b.congelante
    ensures t.kind == Congelacion ==> b.dano == 0 && b.congelante
  {
    var b := Bala(t.x, t.y, TruncDiv(v.x - t.x, VelocityDivisor), TruncDiv(v.y - t.y, VelocityDivisor),
                  if t.kind == Ataque then t.dano else 0, t.kind == Congelacion);
    SameSign(v.x - t.x, b.dx);
    SameSign(v.y - t.y, b.dy);
    b
  }

  lemma SameSign(a: int, q: int)
    requires q == TruncDiv(a, VelocityDivisor)
    ensures Abs(q * VelocityDivisor) <= Abs(a) < Abs(q * VelocityDivisor) + VelocityDivisor
    ensures q * a >= 0
  {
    if a >= 0 {
      assert q >= 0;
    } else {
      assert q <= 0;
    }
  }

  /** The cooldown test `currentTime - lastShotTime > shotInterval`. */
  predicate CooledDown(t: Tower, now: int)
  {
    now - t.lastShotTime > t.shotInterval
  }

  /** `disparar` at time `now`: once the cooldown has passed and some live
      enemy is in range, the first such enemy in roster order gets exactly
      one bullet and the shot time becomes `now`; otherwise nothing
      changes. Only the bullets and the shot time ever change. */
  function Fire(t: Tower, vs: seq<EnemyView>, now: int): (r: Tower)
    ensures r == t.(balas := r.balas, lastShotTime := r.lastShotTime)
    ensures CooledDown(t, now) && (exists k :: 0 <= k < |vs| && Qualifies(t, vs[k])) ==>
      exists k :: 0 <= k < |vs| && Qualifies(t, vs[k])
        && (forall j :: 0 <= j < k ==> !Qualifies(t, vs[j]))
        && r.balas == t.balas + [Shot(t, vs[k])]
        && r.lastShotTime == now
    ensures !(CooledDown(t, now) && exists k :: 0 <= k < |vs| && Qualifies(t, vs[k])) ==> r == t
  {
    if CooledDown(t, now) then
      match FirstTarget(t, vs)
      case None => t
      case Some(k) => t.(balas := t.balas + [Shot(t, vs[k])], lastShotTime := now)
    else t
  }

  /** After a shot, a second call within the interval fires nothing, so two
      calls 500 ms apart on a tower with a 1000 ms interval create exactly
      one bullet when a target is in range both times. */
  lemma CooldownAllowsOneShot(t: Tower, vs1: seq<EnemyView>, vs2: seq<EnemyView>, now1: int, now2: int)
    requires CooledDown(t, now1) && now1 <= now2 <= now1 + t.shotInterval
    requires exists k :: 0 <= k < |vs1| && Qualifies(t, vs1[k])
    ensures |Fire(Fire(t, vs1, now1), vs2, now2).balas| == |t.balas| + 1
  {
  }

  /** An attack tower with range 200: an enemy 150 units away
      draws one bullet aimed at it at 15 units per tick; with no enemy in
      range the tower fires nothing. */
  lemma AttackTowerExample()
    ensures var t := NewTower(Ataque, 100, 100, 1000);
      && Fire(t, [EnemyView(100, 250, 100, true, false)], 2000).balas == [Bala(100, 100, 15, 0, 20, false)]
      && Fire(t, [EnemyView(100, 400, 100, true, false)], 2000).balas == []
  {
    var t := NewTower(Ataque, 100, 100, 1000);
    var v := EnemyView(100, 250, 100, true, false);
    assert Qualifies(t, v);
    assert TruncDiv(150, 10) == 15;
    assert !Qualifies(t, EnemyView(100, 400, 100, true, false));
  }
}
