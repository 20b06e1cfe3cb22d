/** The base's damage rule, `Base.recibirDaño`, over the base's health and
    the panel's game-active flag (`GamePanel.juegoActivo`). */
module BaseRules {

  /** Health of the base the panel is created with. */
  const SaludInicial: int := 100
  /** Health of the base `resetGame` creates (not the initial 100). */
  const SaludTrasReinicio: int := 1000
  const BaseX: int := 750
  const BaseY: int := 50

  /** What the damage rule reads and writes: the base's health and the
      panel's active flag. */
  datatype BaseState = BaseState(salud: int, activo: bool)

  /** The state after one call, and whether the call ended the game (shows
      the dialog and schedules `resetGame`). */
  datatype Damage = Damage(next: BaseState, gameOver: bool)

  /** `Base.recibirDaño`: ignored while the game is inactive; otherwise the
      damage is subtracted (health is not clamped at zero) and the game ends
      exactly when the new health is at most zero. */
  function RecibirDano(s: BaseState, dano: int): (r: Damage)
    ensures !s.activo ==> r.next == s && !r.gameOver
    ensures s.activo ==> r.next.salud == s.salud - dano
    ensures s.activo ==> (r.next.activo <==> r.next.salud > 0)
    ensures r.gameOver <==> s.activo && !r.next.activo
  {
    if !s.activo then Damage(s, false)
    else
      var salud := s.salud - dano;
      if salud <= 0 then Damage(BaseState(salud, false), true)
      else Damage(BaseState(salud, true), false)
  }

  /** A run of damage calls, in order: the final state and how many of the
      calls ended the game. */
  function DamageAll(s: BaseState, ds: seq<int>): (BaseState, nat)
    decreases |ds|
  {
    if ds == [] then (s, 0)
    else
      var r := RecibirDano(s, ds[0]);
      var t := DamageAll(r.next, ds[1..]);
      (t.0, t.1 + if r.gameOver then 1 else 0)
  }

  function Sum(ds: seq<int>): int
    decreases |ds|
  {
    if ds == [] then 0 else ds[0] + Sum(ds[1..])
  }

  lemma {:induction false} SumNonNegative(ds: seq<int>)
    requires forall k :: 0 <= k < |ds| ==> ds[k] >= 0
    ensures Sum(ds) >= 0
    decreases |ds|
  {
    if ds != [] {
      SumNonNegative(ds[1..]);
    }
  }

  /** Once the game is inactive every further call is a no-op. */
  lemma {:induction false} InactiveIgnoresDamage(s: BaseState, ds: seq<int>)
    requires !s.activo
    ensures DamageAll(s, ds) == (s, 0)
    decreases |ds|
  {
    if ds != [] {
      InactiveIgnoresDamage(s, ds[1..]);
    }
  }

  /** Game over fires at most once per active period, and when it has fired
      the game is left inactive. */
  lemma {:induction false} GameOverAtMostOnce(s: BaseState, ds: seq<int>)
    ensures DamageAll(s, ds).1 <= 1
    ensures DamageAll(s, ds).1 == 1 ==> !DamageAll(s, ds).0.activo
    ensures !s.activo ==> DamageAll(s, ds).1 == 0
    decreases |ds|
  {
    if ds != [] {
      var r := RecibirDano(s, ds[0]);
      if r.gameOver {
        InactiveIgnoresDamage(r.next, ds[1..]);
      } else {
        GameOverAtMostOnce(r.next, ds[1..]);
      }
    }
  }

  /** With non-negative damages and a live base, game over fires exactly
      when the total damage reaches the starting health; until then the
      base keeps running with its health reduced by exactly the total. */
  lemma {:induction false} GameOverExactlyWhenDepleted(s: BaseState, ds: seq<int>)
    requires s.activo && s.salud > 0
    requires forall k :: 0 <= k < |ds| ==> ds[k] >= 0
    ensures DamageAll(s, ds).1 == 1 <==> Sum(ds) >= s.salud
    ensures Sum(ds) < s.salud ==> DamageAll(s, ds).0 == BaseState(s.salud - Sum(ds), true)
    decreases |ds|
  {
    if ds != [] {
      var r := RecibirDano(s, ds[0]);
      SumNonNegative(ds[1..]);
      if r.gameOver {
        InactiveIgnoresDamage(r.next, ds[1..]);
      } else {
        GameOverExactlyWhenDepleted(r.next, ds[1..]);
      }
    }
  }

  /** Three enemies reaching a fresh base leave it at 70, still active. */
  lemma ThreeStrikesFromInitialBase()
    ensures DamageAll(BaseState(SaludInicial, true), [10, 10, 10]) == (BaseState(70, true), 0)
  {
    assert [10, 10, 10][1..] == [10, 10];
    assert [10, 10][1..] == [10];
  }
}
