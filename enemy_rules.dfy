/** An enemy's observable state and the rules that change it: damage
    (`Enemigo.recibirDaño`), freezing (`Enemigo.congelar`) and one step of the
    walk that `Enemigo.run` performs along the path. */
module EnemyRules {
  import opened Common
  import opened Path

  /** Health `addEnemigo` gives every new enemy. */
  const SaludEnemigo: int := 100
  /** An enemy closer than this to the base strikes it. */
  const StrikeRadius: int := 100
  /** Damage an enemy deals to the base when it strikes. */
  const StrikeDamage: int := 10

  /** The fields of an enemy that towers read and write. */
  datatype EnemyView = EnemyView(salud: int, x: int, y: int, vivo: bool, congelado: bool)

  /** A new enemy: alive, not frozen, at the first waypoint. */
  function Spawn(salud: int): EnemyView
  {
    EnemyView(salud, Camino[0].x, Camino[0].y, true, false)
  }

  /** `Enemigo.recibirDaño`: health drops by the damage and the enemy dies
      once health is at most zero; nothing else changes. */
  function Damaged(v: EnemyView, dano: int): (w: EnemyView)
    ensures w.salud == v.salud - dano
    ensures w.vivo <==> v.vivo && w.salud > 0
    ensures w.x == v.x && w.y == v.y && w.congelado == v.congelado
  {
    var salud := v.salud - dano;
    v.(salud := salud, vivo := if salud <= 0 then false else v.vivo)
  }

  /** Where the loop of `Enemigo.run` stands. `AtGuard(i, step)`: at the
      top of the inner loop body for move `step` of segment `i`, about to
      test `juegoActivo && !congelado && vivo`. `AfterMove(i, step)`: the
      move is done, about to test `congelado`. `Finished`: `run` has
      returned. */
  datatype Phase = AtGuard(i: nat, step: nat) | AfterMove(i: nat, step: nat) | Finished

  predicate ValidPhase(p: Phase)
  {
    p.Finished? || (1 <= p.i < |Camino| && p.step <= Steps(p.i))
  }

  /** Where `run` begins for a live enemy: segment 1, move 0. */
  const Start: Phase := AtGuard(1, 0)

  /** The two loop headers after move `step` of segment `i`: `step++` and
      `step <= steps && vivo`; failing that, `i++` and
      `i < camino.length && vivo`. */
  function NextPhase(i: nat, step: nat, vivo: bool): (p: Phase)
    requires 1 <= i < |Camino| && step <= Steps(i)
    ensures ValidPhase(p)
    ensures !vivo ==> p == Finished
  {
    if step + 1 <= Steps(i) && vivo then AtGuard(i, step + 1)
    else if i + 1 < |Camino| && vivo then AtGuard(i + 1, 0)
    else Finished
  }

  /** The enemy after one step, where its walk now stands, and whether it
      struck the base in this step (the caller then applies the strike to
      the base). */
  datatype StepResult = StepResult(v: EnemyView, fase: Phase, strike: bool)

  /** One step of `Enemigo.run`. `activo` is the panel's flag and `base`
      the base's position, both read at this step. */
  function Advance(v: EnemyView, fase: Phase, activo: bool, base: Point): (r: StepResult)
    requires ValidPhase(fase)
    ensures ValidPhase(r.fase)
    ensures r.v.salud == v.salud
    ensures r.v.vivo ==> v.vivo
    ensures r.strike ==> !r.v.vivo && r.fase == Finished
  {
    match fase
    case Finished => StepResult(v, Finished, false)
    case AtGuard(i, step) =>
      if !(activo && !v.congelado && v.vivo) then
        // a freeze seen here ends the walk instead of pausing it
        StepResult(v, Finished, false)
      else
        var p := PathPoint(i, step);
        var moved := v.(x := p.x, y := p.y);
        if SqDist(p.x, p.y, base.x, base.y) < StrikeRadius * StrikeRadius then
          StepResult(moved.(vivo := false), Finished, true)
        else
          StepResult(moved, AfterMove(i, step), false)
    case AfterMove(i, step) =>
      // the freeze pause (500 ms) happens here, then the flag is cleared
      var w := v.(congelado := false);
      StepResult(w, NextPhase(i, step, w.vivo), false)
  }

  /** A finished walk stays finished and changes nothing. */
  lemma FinishedIsFinal(v: EnemyView, activo: bool, base: Point)
    ensures Advance(v, Finished, activo, base) == StepResult(v, Finished, false)
  {
  }

  /** At the guard, an inactive game, a frozen enemy or a dead one ends the
      walk without any change: a freeze that is already set when a move
      begins terminates the walk rather than pausing it. */
  lemma GuardFailureEndsWalk(v: EnemyView, i: nat, step: nat, activo: bool, base: Point)
    requires ValidPhase(AtGuard(i, step))
    requires !activo || v.congelado || !v.vivo
    ensures Advance(v, AtGuard(i, step), activo, base) == StepResult(v, Finished, false)
  {
  }

  /** At the guard of a live, unfrozen enemy in an active game, the enemy
      moves to the interpolated point, and it strikes the base exactly when
      that point is within the strike radius; a strike kills it and ends the
      walk, otherwise it goes on to the freeze check. */
  lemma GuardPassMoves(v: EnemyView, i: nat, step: nat, base: Point)
    requires ValidPhase(AtGuard(i, step))
    requires v.vivo && !v.congelado
    ensures var r := Advance(v, AtGuard(i, step), true, base);
      && r.v.x == PathPoint(i, step).x && r.v.y == PathPoint(i, step).y
      && r.v.congelado == v.congelado
      && (r.strike <==> SqDist(r.v.x, r.v.y, base.x, base.y) < StrikeRadius * StrikeRadius)
      && (!r.strike ==> r.v.vivo && r.fase == AfterMove(i, step))
  {
  }

  /** After a move, a freeze that arrived meanwhile is cleared (after the
      pause) without moving the enemy, and the loop advances. */
  lemma AfterMoveClearsFreeze(v: EnemyView, i: nat, step: nat, activo: bool, base: Point)
    requires ValidPhase(AfterMove(i, step))
    ensures var r := Advance(v, AfterMove(i, step), activo, base);
      && r.v == v.(congelado := false)
      && !r.strike
      && r.fase == NextPhase(i, step, v.vivo)
  {
  }

  /** The number of guard positions still to come on segments `j` and
      later. */
  function Rest(j: nat): nat
    requires 1 <= j <= |Camino|
    decreases |Camino| - j
  {
    if j == |Camino| then 0 else Steps(j) + 1 + Rest(j + 1)
  }

  /** A bound on the steps `run` has left. */
  function Measure(p: Phase): nat
    requires ValidPhase(p)
  {
    match p
    case Finished => 0
    case AtGuard(i, step) => 2 * (Steps(i) - step + Rest(i + 1)) + 2
    case AfterMove(i, step) => 2 * (Steps(i) - step + Rest(i + 1)) + 1
  }

  /** The loop headers after a move lead to a smaller measure. */
  lemma NextPhaseProgresses(i: nat, step: nat, vivo: bool)
    requires 1 <= i < |Camino| && step <= Steps(i)
    ensures Measure(NextPhase(i, step, vivo)) < Measure(AfterMove(i, step))
  {
    if step + 1 <= Steps(i) && vivo {
      assert NextPhase(i, step, vivo) == AtGuard(i, step + 1);
    } else if i + 1 < |Camino| && vivo {
      assert NextPhase(i, step, vivo) == AtGuard(i + 1, 0);
      NextSegmentProgresses(i, step);
    } else {
      assert NextPhase(i, step, vivo) == Finished;
    }
  }

  /** Moving on to the next segment lowers the measure. */
  lemma NextSegmentProgresses(i: nat, step: nat)
    requires 1 <= i && i + 1 < |Camino| && step <= Steps(i)
    ensures Measure(AtGuard(i + 1, 0)) < Measure(AfterMove(i, step))
  {
    var r := Rest(i + 1);
    assert r == Steps(i + 1) + 1 + Rest(i + 2);
  }

  /** Every step of an unfinished walk decreases the measure, so each
      enemy's `run` terminates whatever else happens between its steps. */
  lemma {:induction false} AdvanceProgresses(v: EnemyView, fase: Phase, activo: bool, base: Point)
    requires ValidPhase(fase) && !fase.Finished?
    ensures Measure(Advance(v, fase, activo, base).fase) < Measure(fase)
  {
    match fase
    case AtGuard(i, step) =>
      var f := Advance(v, fase, activo, base).fase;
      assert f == Finished || f == AfterMove(i, step);
      assert Measure(AfterMove(i, step)) < Measure(fase);
    case AfterMove(i, step) =>
      assert Advance(v, fase, activo, base).fase == NextPhase(i, step, v.vivo);
      NextPhaseProgresses(i, step, v.vivo);
  }

  /** A walk takes at most 8818 steps: two per position on the path, which
      has 4409 of them (5 * 801 + 4 * 101). */
  lemma StartMeasure()
    ensures Measure(Start) == 8818
  {
    assert Rest(9) == 801;
    assert Rest(8) == 902;
    assert Rest(7) == 1703;
    assert Rest(6) == 1804;
    assert Rest(5) == 2605;
    assert Rest(4) == 2706;
    assert Rest(3) == 3507;
    assert Rest(2) == 3608;
  }

  /** No step sets `vivo` back to true, and neither does damage. */
  lemma DeathIsFinal(v: EnemyView, fase: Phase, activo: bool, base: Point, dano: int)
    requires ValidPhase(fase) && !v.vivo
    ensures !Advance(v, fase, activo, base).v.vivo
    ensures !Damaged(v, dano).vivo
  {
  }
}
