/** Bullets (`Bala`) and the specification of `Torre.updateBullets`: every
    bullet moves once, then hits the first live enemy it touches, if any.

    Enemies are objects shared by the roster, their own walking task and
    every tower, so the rules here are generic in the type `E` that
    identifies an enemy, and the enemies' fields are a map from identity to
    `EnemyView` (a snapshot of the heap). The roster may then hold the same
    enemy twice and the rules still say what the Java code does. */
module BulletRules {
  import opened Common
  import opened EnemyRules

  /** A bullet: position, velocity per tick and payload. */
  datatype Bala = Bala(x: int, y: int, dx: int, dy: int, dano: int, congelante: bool)

  /** `Bala.mover`: one move by the bullet's velocity. */
  function Mover(b: Bala): Bala
  {
    b.(x := b.x + b.dx, y := b.y + b.dy)
  }

  /** A bullet after `k` calls of `mover`, one per tick it survives. */
  function Travel(b: Bala, k: nat): Bala
    decreases k
  {
    if k == 0 then b else Travel(Mover(b), k - 1)
  }

  /** Bullets fly straight: after `k` moves a bullet is `k` velocities from
      where it started, with its velocity and payload unchanged. */
  lemma {:induction false} TravelIsStraight(b: Bala, k: nat)
    ensures Travel(b, k) == b.(x := b.x + k * b.dx, y := b.y + k * b.dy)
    decreases k
  {
    if k > 0 {
      TravelIsStraight(Mover(b), k - 1);
      assert b.x + b.dx + (k - 1) * b.dx == b.x + k * b.dx;
      assert b.y + b.dy + (k - 1) * b.dy == b.y + k * b.dy;
    }
  }

  function MoveAll(bs: seq<Bala>): (ms: seq<Bala>)
    ensures |ms| == |bs| && forall k :: 0 <= k < |bs| ==> ms[k] == Mover(bs[k])
  {
    seq(|bs|, k requires 0 <= k < |bs| => Mover(bs[k]))
  }

  /** `Bala.impacto`: closer than 10 units to the enemy. */
  predicate Impacto(b: Bala, v: EnemyView)
  {
    SqDist(b.x, b.y, v.x, v.y) < 10 * 10
  }

  /** The test `enemigo.estaVivo() && bala.impacto(enemigo)`. */
  predicate HitsLive(b: Bala, v: EnemyView)
  {
    v.vivo && Impacto(b, v)
  }

  /** The index of the first enemy in roster order that `b` hits. */
  function FirstHit(b: Bala, vs: seq<EnemyView>): (r: Option<nat>)
    ensures r.Some? ==> r.value < |vs| && HitsLive(b, vs[r.value])
    ensures r.Some? ==> forall k :: 0 <= k < r.value ==> !HitsLive(b, vs[k])
    ensures r.None? ==> forall k :: 0 <= k < |vs| ==> !HitsLive(b, vs[k])
    decreases |vs|
  {
    if vs == [] then None
    else if HitsLive(b, vs[0]) then Some(0)
    else match FirstHit(b, vs[1..])
      case None => None
      case Some(k) => Some(k + 1)
  }

  /** What a hit does to the enemy: a freezing bullet sets `congelado`
      (`Enemigo.congelar`), any other one deals its damage
      (`Enemigo.recibirDaño`). */
  function Struck(v: EnemyView, b: Bala): EnemyView
  {
    if b.congelante then v.(congelado := true) else Damaged(v, b.dano)
  }

  /** Every enemy of the roster has a recorded state. */
  predicate Covers<E(==)>(roster: seq<E>, st: map<E, EnemyView>)
  {
    forall e :: e in roster ==> e in st
  }

  /** The roster's enemies' states, in roster order. */
  function Lookup<E(==)>(roster: seq<E>, st: map<E, EnemyView>): (vs: seq<EnemyView>)
    requires Covers(roster, st)
    ensures |vs| == |roster| && forall k :: 0 <= k < |roster| ==> vs[k] == st[roster[k]]
  {
    seq(|roster|, k requires 0 <= k < |roster| => st[roster[k]])
  }

  /** The bullets a tower keeps, the roster and the enemies' states. */
  datatype Outcome<E> = Outcome(bullets: seq<Bala>, roster: seq<E>, views: map<E, EnemyView>)

  /** `o` with the bullets `done` in front of its own. */
  function Prepend<E>(done: seq<Bala>, o: Outcome<E>): Outcome<E>
  {
    o.(bullets := done + o.bullets)
  }

  lemma PrependTwice<E>(a: seq<Bala>, b: seq<Bala>, o: Outcome<E>)
    ensures Prepend(a, Prepend(b, o)) == Prepend(a + b, o)
  {
    assert a + (b + o.bullets) == (a + b) + o.bullets;
  }

  /** One pass of the inner loop of `updateBullets` for bullet `b`. */
  function BulletStep<E(==)>(b: Bala, roster: seq<E>, st: map<E, EnemyView>): (r: Outcome<E>)
    requires Covers(roster, st)
    ensures Covers(r.roster, st) && r.views.Keys == st.Keys
    ensures IsSubseq(r.roster, roster)
    ensures |r.bullets| <= 1 && IsSubseq(r.bullets, [Mover(b)])
    ensures r.bullets == [] <==> exists k :: 0 <= k < |roster| && HitsLive(Mover(b), st[roster[k]])
    ensures r.bullets != [] ==> r.roster == roster && r.views == st
  {
    var m := Mover(b);
    match FirstHit(m, Lookup(roster, st))
    case None =>
      SubseqRefl(roster);
      SubseqRefl([m]);
      Outcome([m], roster, st)
    case Some(k) =>
      var e := roster[k];
      var w := Struck(st[e], m);
      RemoveIsSubseq(roster, k);
      SubseqRefl(roster);
      Outcome([], if w.vivo then roster else Remove(roster, k), st[e := w])
  }

  /** `Torre.updateBullets` over the tower's bullets `bs`, in list order. */
  function UpdateSpec<E(==)>(bs: seq<Bala>, roster: seq<E>, st: map<E, EnemyView>): (r: Outcome<E>)
    requires Covers(roster, st)
    ensures Covers(r.roster, st) && r.views.Keys == st.Keys
    decreases |bs|
  {
    if bs == [] then Outcome([], roster, st)
    else
      var s := BulletStep(bs[0], roster, st);
      var rest := UpdateSpec(bs[1..], s.roster, s.views);
      Outcome(s.bullets + rest.bullets, rest.roster, rest.views)
  }

  /** The pass from bullet `n` on, after the bullets `done` already
      kept, is bullet `n`'s step followed by the pass from bullet `n + 1`
      on; the step keeps only enemies of the roster it was given. */
  lemma UpdateStepAt<E>(bs: seq<Bala>, n: nat, done: seq<Bala>, roster: seq<E>, st: map<E, EnemyView>)
    requires n < |bs| && Covers(roster, st)
    ensures var s := BulletStep(bs[n], roster, st);
      && Prepend(done, UpdateSpec(bs[n..], roster, st))
         == Prepend(done + s.bullets, UpdateSpec(bs[n + 1..], s.roster, s.views))
      && bs[n..] == [bs[n]] + bs[n + 1..]
      && forall e :: e in s.roster ==> e in roster
  {
    var s := BulletStep(bs[n], roster, st);
    assert bs[n..][0] == bs[n] && bs[n..][1..] == bs[n + 1..];
    PrependTwice(done, s.bullets, UpdateSpec(bs[n + 1..], s.roster, s.views));
    SubseqMembers(s.roster, roster);
  }

  // ---- one bullet ----

  /** A bullet that hits affects exactly one enemy, the first live enemy it
      touches in roster order: a freezing bullet only sets `congelado`, an
      attack bullet only subtracts its damage; that enemy leaves the roster
      exactly when the hit left it dead, and every other entry is
      untouched. */
  lemma {:induction false} HitEffect<E>(b: Bala, roster: seq<E>, st: map<E, EnemyView>)
    requires Covers(roster, st)
    requires exists k :: 0 <= k < |roster| && HitsLive(Mover(b), st[roster[k]])
    ensures var r := BulletStep(b, roster, st);
      exists k :: 0 <= k < |roster|
        && HitsLive(Mover(b), st[roster[k]])
        && (forall j :: 0 <= j < k ==> !HitsLive(Mover(b), st[roster[j]]))
        && r.views == st[roster[k] := r.views[roster[k]]]
        && (b.congelante ==> r.views[roster[k]] == st[roster[k]].(congelado := true))
        && (!b.congelante ==> r.views[roster[k]] == Damaged(st[roster[k]], b.dano))
        && (r.views[roster[k]].vivo ==> r.roster == roster)
        && (!r.views[roster[k]].vivo ==> r.roster == Remove(roster, k))
  {
    var m := Mover(b);
    var vs := Lookup(roster, st);
    var j :| 0 <= j < |roster| && HitsLive(m, st[roster[j]]);
    assert HitsLive(m, vs[j]);
    var k := FirstHit(m, vs).value;
    assert HitsLive(m, st[roster[k]]);
  }

  // ---- the whole pass ----

  /** Surviving bullets are the moved ones, in their original order, so
      the number of bullets never grows. */
  lemma {:induction false} UpdateKeepsBulletOrder<E>(bs: seq<Bala>, roster: seq<E>, st: map<E, EnemyView>)
    requires Covers(roster, st)
    ensures IsSubseq(UpdateSpec(bs, roster, st).bullets, MoveAll(bs))
    ensures |UpdateSpec(bs, roster, st).bullets| <= |bs|
    decreases |bs|
  {
    if bs == [] {
    } else {
      var s := BulletStep(bs[0], roster, st);
      var rest := UpdateSpec(bs[1..], s.roster, s.views);
      UpdateKeepsBulletOrder(bs[1..], s.roster, s.views);
      var ms := MoveAll(bs);
      assert ms[0] == Mover(bs[0]) && ms[1..] == MoveAll(bs[1..]);
      var r := s.bullets + rest.bullets;
      if s.bullets == [] {
        assert r == rest.bullets;
      } else {
        assert r[0] == ms[0] && r[1..] == rest.bullets;
      }
      SubseqLength(r, ms);
    }
  }

  /** The roster only loses entries and keeps its order. */
  lemma {:induction false} UpdateShrinksRoster<E>(bs: seq<Bala>, roster: seq<E>, st: map<E, EnemyView>)
    requires Covers(roster, st)
    ensures IsSubseq(UpdateSpec(bs, roster, st).roster, roster)
    decreases |bs|
  {
    if bs == [] {
      SubseqRefl(roster);
    } else {
      var s := BulletStep(bs[0], roster, st);
      UpdateShrinksRoster(bs[1..], s.roster, s.views);
      SubseqTrans(UpdateSpec(bs[1..], s.roster, s.views).roster, s.roster, roster);
    }
  }

  /** No enemy's health grows when every bullet's damage is non-negative. */
  lemma {:induction false} UpdateNeverHeals<E>(bs: seq<Bala>, roster: seq<E>, st: map<E, EnemyView>)
    requires Covers(roster, st)
    requires forall k :: 0 <= k < |bs| ==> bs[k].dano >= 0
    ensures var r := UpdateSpec(bs, roster, st);
      forall e :: e in st ==> r.views[e].salud <= st[e].salud
    decreases |bs|
  {
    if bs != [] {
      var s := BulletStep(bs[0], roster, st);
      UpdateNeverHeals(bs[1..], s.roster, s.views);
    }
  }

  /** Freezing bullets never change health; attack bullets never freeze. */
  lemma {:induction false} PayloadsStayApart<E>(bs: seq<Bala>, roster: seq<E>, st: map<E, EnemyView>)
    requires Covers(roster, st)
    ensures (forall k :: 0 <= k < |bs| ==> bs[k].congelante) ==>
      forall e :: e in st ==> UpdateSpec(bs, roster, st).views[e].salud == st[e].salud
    ensures (forall k :: 0 <= k < |bs| ==> !bs[k].congelante) ==>
      forall e :: e in st ==> UpdateSpec(bs, roster, st).views[e].congelado == st[e].congelado
    decreases |bs|
  {
    if bs != [] {
      var s := BulletStep(bs[0], roster, st);
      PayloadsStayApart(bs[1..], s.roster, s.views);
    }
  }

  /** An enemy leaves the roster only dead; an enemy that was already dead
      (it reached the base) is never removed by this pass. */
  lemma {:induction false} RemovedEnemiesAreDead<E>(bs: seq<Bala>, roster: seq<E>, st: map<E, EnemyView>)
    requires Covers(roster, st)
    ensures var r := UpdateSpec(bs, roster, st);
      forall e :: e in roster && e !in r.roster ==> !r.views[e].vivo
    ensures var r := UpdateSpec(bs, roster, st);
      forall e :: e in roster && !st[e].vivo ==> e in r.roster
    decreases |bs|
  {
    if bs != [] {
      var m := Mover(bs[0]);
      var s := BulletStep(bs[0], roster, st);
      var r := UpdateSpec(bs[1..], s.roster, s.views);
      RemovedEnemiesAreDead(bs[1..], s.roster, s.views);
      UpdateNeverRevives(bs[1..], s.roster, s.views);
      forall e | e in roster && e !in s.roster
        ensures !s.views[e].vivo
      {
        HitEffect(bs[0], roster, st);
        var k :| 0 <= k < |roster| && HitsLive(m, st[roster[k]])
          && s.views == st[roster[k] := s.views[roster[k]]]
          && (s.views[roster[k]].vivo ==> s.roster == roster)
          && (!s.views[roster[k]].vivo ==> s.roster == Remove(roster, k));
        if e != roster[k] {
          RemoveMembers(roster, k, e);
        }
      }
      forall e | e in roster && !st[e].vivo
        ensures e in s.roster && !s.views[e].vivo
      {
        if s.bullets == [] {
          HitEffect(bs[0], roster, st);
          var k :| 0 <= k < |roster| && HitsLive(m, st[roster[k]])
            && s.views == st[roster[k] := s.views[roster[k]]]
            && (s.views[roster[k]].vivo ==> s.roster == roster)
            && (!s.views[roster[k]].vivo ==> s.roster == Remove(roster, k));
          RemoveMembers(roster, k, e);
        }
      }
    }
  }

  /** Death is final through the pass, whatever the bullets' damage. */
  lemma {:induction false} UpdateNeverRevives<E>(bs: seq<Bala>, roster: seq<E>, st: map<E, EnemyView>)
    requires Covers(roster, st)
    ensures forall e :: e in st && !st[e].vivo ==> !UpdateSpec(bs, roster, st).views[e].vivo
    decreases |bs|
  {
    if bs != [] {
      var s := BulletStep(bs[0], roster, st);
      UpdateNeverRevives(bs[1..], s.roster, s.views);
    }
  }

  /** The pass writes only the states of enemies on the roster; every other
      recorded state is left as it was. */
  lemma {:induction false} UpdateTouchesOnlyRoster<E>(bs: seq<Bala>, roster: seq<E>, st: map<E, EnemyView>)
    requires Covers(roster, st)
    ensures var r := UpdateSpec(bs, roster, st);
      forall e :: e in st && e !in roster ==> r.views[e] == st[e]
    decreases |bs|
  {
    if bs != [] {
      var s := BulletStep(bs[0], roster, st);
      UpdateTouchesOnlyRoster(bs[1..], s.roster, s.views);
      SubseqMembers(s.roster, roster);
      if s.bullets == [] {
        HitEffect(bs[0], roster, st);
      }
    }
  }
}
