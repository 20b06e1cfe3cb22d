/** The specification of one tick of `GamePanel.updateGame` while the game
    is active: every tower, in list order, moves its bullets against the
    roster and then tries to fire at the roster as that pass left it. */
module WorldRules {
  import opened Common
  import opened EnemyRules
  import opened BulletRules
  import opened TowerRules

  /** The towers' states, the roster and the enemies' states after a tick.
      `T` identifies a tower and `E` an enemy. */
  datatype Tick<T, E> = Tick(towers: map<T, Tower>, roster: seq<E>, views: map<E, EnemyView>)

  /** Every tower of the list has a recorded state. */
  predicate TowersCovered<T(==)>(ts: seq<T>, tm: map<T, Tower>)
  {
    forall t :: t in ts ==> t in tm
  }

  /** One tick of `updateGame` at time `now`: each tower in list order
      first moves its bullets against the roster, then tries to fire at
      the roster as that pass left it. */
  function TickSpec<T(==), E(==)>(ts: seq<T>, tm: map<T, Tower>, roster: seq<E>,
                                  st: map<E, EnemyView>, now: int): (r: Tick<T, E>)
    requires TowersCovered(ts, tm) && Covers(roster, st)
    ensures r.towers.Keys == tm.Keys && r.views.Keys == st.Keys
    ensures Covers(r.roster, st)
    decreases |ts|
  {
    if ts == [] then Tick(tm, roster, st)
    else
      var t := ts[0];
      var u := UpdateSpec(tm[t].balas, roster, st);
      var fired := Fire(tm[t].(balas := u.bullets), Lookup(u.roster, u.views), now);
      TickSpec(ts[1..], tm[t := fired], u.roster, u.views, now)
  }

  /** The tick from tower `i` on is tower `i`'s update and shot followed
      by the tick from tower `i + 1` on. */
  lemma TickStepAt<T, E>(ts: seq<T>, i: nat, tm: map<T, Tower>, roster: seq<E>, st: map<E, EnemyView>, now: int)
    requires i < |ts| && TowersCovered(ts, tm) && Covers(roster, st)
    ensures var t := ts[i];
      var u := UpdateSpec(tm[t].balas, roster, st);
      var fired := Fire(tm[t].(balas := u.bullets), Lookup(u.roster, u.views), now);
      TickSpec(ts[i..], tm, roster, st, now) == TickSpec(ts[i + 1..], tm[t := fired], u.roster, u.views, now)
  {
    assert ts[i..][0] == ts[i] && ts[i..][1..] == ts[i + 1..];
  }

  /** A tick only removes enemies from the roster and keeps its order. */
  lemma {:induction false} TickShrinksRoster<T, E>(ts: seq<T>, tm: map<T, Tower>, roster: seq<E>,
                                                   st: map<E, EnemyView>, now: int)
    requires TowersCovered(ts, tm) && Covers(roster, st)
    ensures IsSubseq(TickSpec(ts, tm, roster, st, now).roster, roster)
    decreases |ts|
  {
    if ts == [] {
      SubseqRefl(roster);
    } else {
      var t := ts[0];
      var u := UpdateSpec(tm[t].balas, roster, st);
      var fired := Fire(tm[t].(balas := u.bullets), Lookup(u.roster, u.views), now);
      UpdateShrinksRoster(tm[t].balas, roster, st);
      TickShrinksRoster(ts[1..], tm[t := fired], u.roster, u.views, now);
      SubseqTrans(TickSpec(ts[1..], tm[t := fired], u.roster, u.views, now).roster, u.roster, roster);
    }
  }

  /** No enemy comes back to life during a tick, and no enemy leaves the
      roster alive. */
  lemma {:induction false} TickNeverRevives<T, E>(ts: seq<T>, tm: map<T, Tower>, roster: seq<E>,
                                                  st: map<E, EnemyView>, now: int)
    requires TowersCovered(ts, tm) && Covers(roster, st)
    ensures var r := TickSpec(ts, tm, roster, st, now);
      forall e :: e in st && !st[e].vivo ==> !r.views[e].vivo
    ensures var r := TickSpec(ts, tm, roster, st, now);
      forall e :: e in roster && e !in r.roster ==> !r.views[e].vivo
    decreases |ts|
  {
    if ts != [] {
      var t := ts[0];
      var u := UpdateSpec(tm[t].balas, roster, st);
      var fired := Fire(tm[t].(balas := u.bullets), Lookup(u.roster, u.views), now);
      var r := TickSpec(ts[1..], tm[t := fired], u.roster, u.views, now);
      UpdateNeverRevives(tm[t].balas, roster, st);
      RemovedEnemiesAreDead(tm[t].balas, roster, st);
      TickNeverRevives(ts[1..], tm[t := fired], u.roster, u.views, now);
    }
  }

  /** Towers outside the list are left alone, and a tower's bullets can
      grow by at most one per appearance in the list. */
  lemma {:induction false} TickTouchesOnlyListedTowers<T, E>(ts: seq<T>, tm: map<T, Tower>, roster: seq<E>,
                                                             st: map<E, EnemyView>, now: int)
    requires TowersCovered(ts, tm) && Covers(roster, st)
    ensures var r := TickSpec(ts, tm, roster, st, now);
      forall t :: t in tm && t !in ts ==> r.towers[t] == tm[t]
    ensures var r := TickSpec(ts, tm, roster, st, now);
      forall t :: t in tm ==> |r.towers[t].balas| <= |tm[t].balas| + multiset(ts)[t]
    decreases |ts|
  {
    if ts != [] {
      var t := ts[0];
      var u := UpdateSpec(tm[t].balas, roster, st);
      var fired := Fire(tm[t].(balas := u.bullets), Lookup(u.roster, u.views), now);
      UpdateKeepsBulletOrder(tm[t].balas, roster, st);
      TickTouchesOnlyListedTowers(ts[1..], tm[t := fired], u.roster, u.views, now);
      assert ts == [t] + ts[1..];
      assert multiset(ts) == multiset{t} + multiset(ts[1..]);
    }
  }
}
