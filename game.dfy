/** The game's objects as classes over the heap: each method changes the
    fields the Java method changes and is proved against the value-level
    rules of the other modules. */
module Game {
  import opened Common
  import opened Path
  import opened BaseRules
  import opened EnemyRules
  import opened BulletRules
  import opened TowerRules
  import opened WaveRules
  import opened SlotRules
  import opened WorldRules

  /** The base the enemies walk to. The panel it reports game over to is
      passed to `RecibirDano`. */
  class Base {
    var salud: int
    const x: int
    const y: int

    constructor (salud: int, x: int, y: int)
      ensures this.salud == salud && this.x == x && this.y == y
    {
      this.salud := salud;
      this.x := x;
      this.y := y;
    }

    /** `Base.recibirDaño`. `gameOver` is true when this call ended the
        game; the source then shows its dialog and has the event thread
        run `resetGame`. */
    method RecibirDano(dano: int, panel: GamePanel) returns (gameOver: bool)
      modifies this`salud, panel`juegoActivo
      ensures var r := BaseRules.RecibirDano(BaseState(old(salud), old(panel.juegoActivo)), dano);
        salud == r.next.salud && panel.juegoActivo == r.next.activo && gameOver == r.gameOver
    {
      gameOver := false;
      if !panel.IsJuegoActivo() {
        return;
      }
      salud := salud - dano;
      if salud <= 0 {
        panel.SetJuegoActivo(false);
        gameOver := true;
      }
    }
  }

  /** An enemy; `fase` records where its `run` loop stands, and `Step`
      performs the next step of that loop. */
  class Enemigo {
    var salud: int
    var x: int
    var y: int
    var vivo: bool
    var congelado: bool
    var fase: Phase
    const panel: GamePanel

    /** The fields towers read and write. */
    function View(): EnemyView
      reads this
    {
      EnemyView(salud, x, y, vivo, congelado)
    }

    /** `new Enemigo(salud, panel)`: at the first waypoint, alive, not
        frozen, with its walk about to begin. */
    constructor (salud: int, panel: GamePanel)
      ensures View() == Spawn(salud) && fase == Start && this.panel == panel
    {
      this.salud := salud;
      x := Camino[0].x;
      y := Camino[0].y;
      vivo := true;
      congelado := false;
      fase := Start;
      this.panel := panel;
    }

    /** `Enemigo.recibirDaño`. */
    method RecibirDano(dano: int)
      modifies this`salud, this`vivo
      ensures View() == Damaged(old(View()), dano)
    {
      salud := salud - dano;
      if salud <= 0 {
        vivo := false;
      }
    }

    /** `Enemigo.congelar`. */
    method Congelar()
      modifies this`congelado
      ensures View() == old(View()).(congelado := true)
    {
      congelado := true;
    }

    /** One step of `Enemigo.run`, against the panel's current base. A
        strike deals the base 10 damage through `Base.RecibirDano`;
        `gameOver` reports that this strike ended the game. */
    method Step() returns (gameOver: bool)
      requires ValidPhase(fase)
      modifies this`x, this`y, this`vivo, this`congelado, this`fase, panel.base`salud, panel`juegoActivo
      ensures var a := Advance(old(View()), old(fase), old(panel.juegoActivo), Point(panel.base.x, panel.base.y));
        && View() == a.v && fase == a.fase
        && (a.strike ==>
              var h := BaseRules.RecibirDano(BaseState(old(panel.base.salud), old(panel.juegoActivo)), StrikeDamage);
              panel.base.salud == h.next.salud && panel.juegoActivo == h.next.activo && gameOver == h.gameOver)
        && (!a.strike ==>
              panel.base.salud == old(panel.base.salud) && panel.juegoActivo == old(panel.juegoActivo) && !gameOver)
    {
      gameOver := false;
      match fase
      case Finished =>
      case AtGuard(i, step) =>
        if panel.IsJuegoActivo() && !congelado && vivo {
          var p := PathPoint(i, step);
          x, y := p.x, p.y;
          var base := panel.base;
          if SqDist(x, y, base.x, base.y) < StrikeRadius * StrikeRadius {
            gameOver := base.RecibirDano(StrikeDamage, panel);
            vivo := false;
            fase := Finished;
          } else {
            fase := AfterMove(i, step);
          }
        } else {
          fase := Finished;
        }
      case AfterMove(i, step) =>
        if congelado {
          congelado := false;
        }
        fase := NextPhase(i, step, vivo);
    }

    /** `Enemigo.run` with no other thread stepping in between: steps until
        the walk is over. The walk always ends, its health never changes
        and a dead enemy stays dead. Either the enemy never struck and the
        base and the game flag are as they were, or it struck once: it is
        dead, and the base took the 10 damage as `Base.RecibirDano` deals
        it, with `gameOver` reporting whether that ended the game. */
    method Run() returns (gameOver: bool)
      requires ValidPhase(fase)
      modifies this`x, this`y, this`vivo, this`congelado, this`fase, panel.base`salud, panel`juegoActivo
      ensures fase == Finished
      ensures salud == old(salud) && (vivo ==> old(vivo))
      ensures var h := BaseRules.RecibirDano(BaseState(old(panel.base.salud), old(panel.juegoActivo)), StrikeDamage);
        || (panel.base.salud == old(panel.base.salud) && panel.juegoActivo == old(panel.juegoActivo) && !gameOver)
        || (!vivo && panel.base.salud == h.next.salud && panel.juegoActivo == h.next.activo && gameOver == h.gameOver)
    {
      ghost var h := BaseRules.RecibirDano(BaseState(panel.base.salud, panel.juegoActivo), StrikeDamage);
      ghost var struck := false;
      gameOver := false;
      while fase != Finished
        invariant ValidPhase(fase)
        invariant salud == old(salud) && (vivo ==> old(vivo))
        invariant !struck ==>
          panel.base.salud == old(panel.base.salud) && panel.juegoActivo == old(panel.juegoActivo) && !gameOver
        invariant struck ==>
          && fase == Finished && !vivo
          && panel.base.salud == h.next.salud && panel.juegoActivo == h.next.activo && gameOver == h.gameOver
        decreases Measure(fase)
      {
        ghost var a := Advance(View(), fase, panel.juegoActivo, Point(panel.base.x, panel.base.y));
        AdvanceProgresses(View(), fase, panel.juegoActivo, Point(panel.base.x, panel.base.y));
        gameOver := Step();
        struck := a.strike;
      }
    }
  }

  /** The states of the enemies of `es`. */
  function Snapshot(es: seq<Enemigo>): (st: map<Enemigo, EnemyView>)
    reads es
    ensures Covers(es, st) && forall e :: e in es ==> st[e] == e.View()
  {
    map e | e in es :: e.View()
  }

  /** The states of the enemies of `es`, in list order. */
  function Views(es: seq<Enemigo>): (vs: seq<EnemyView>)
    reads es
    ensures |vs| == |es| && forall k :: 0 <= k < |es| ==> vs[k] == es[k].View()
  {
    seq(|es|, k requires 0 <= k < |es| reads es => es[k].View())
  }

  /** The heap agrees with the recorded states `st` on the enemies of `es`. */
  predicate Agrees(es: seq<Enemigo>, st: map<Enemigo, EnemyView>)
    reads es
  {
    forall e :: e in es ==> e in st && e.View() == st[e]
  }

  lemma ViewsAgree(es: seq<Enemigo>, st: map<Enemigo, EnemyView>)
    requires Agrees(es, st)
    ensures Covers(es, st) && Views(es) == Lookup(es, st)
  {
  }

  /** The inner loop of `updateBullets`: the index of the first live enemy
      of `roster` that `b` touches, or `|roster|` when there is none. */
  method ScanHit(b: Bala, roster: seq<Enemigo>) returns (j: nat)
    ensures j <= |roster|
    ensures FirstHit(b, Views(roster)) == if j < |roster| then Some(j) else None
  {
    ghost var vs := Views(roster);
    j := 0;
    while j < |roster| && !(roster[j].vivo && Impacto(b, roster[j].View()))
      invariant 0 <= j <= |roster|
      invariant forall k :: 0 <= k < j ==> !HitsLive(b, vs[k])
    {
      j := j + 1;
    }
    if j < |roster| {
      assert HitsLive(b, vs[j]);
    }
  }

  /** What a hit does in `updateBullets`: `congelar` for a freezing bullet,
      `recibirDaño` with the bullet's damage otherwise. */
  method Strike(e: Enemigo, b: Bala)
    modifies e`salud, e`vivo, e`congelado
    ensures e.View() == Struck(old(e.View()), b)
  {
    if b.congelante {
      e.Congelar();
    } else {
      e.RecibirDano(b.dano);
    }
  }

  /** The hit of `updateBullets` on `roster[j]` by the moved bullet `b`:
      the enemy is frozen or damaged and, when that left it dead, removed
      from the roster. `all` is the whole list the roster is drawn from
      and `cur` the enemies' recorded states. */
  method Hit(roster: seq<Enemigo>, j: nat, e: Enemigo, b: Bala, ghost all: seq<Enemigo>,
             ghost cur: map<Enemigo, EnemyView>)
    returns (roster': seq<Enemigo>)
    requires j < |roster| && roster[j] == e && Covers(roster, cur) && Agrees(all, cur)
    requires forall o :: o in roster ==> o in all
    modifies e`salud, e`vivo, e`congelado
    ensures var w := Struck(cur[e], b);
      && Agrees(all, cur[e := w])
      && roster' == if w.vivo then roster else Remove(roster, j)
  {
    ghost var w := Struck(cur[e], b);
    Strike(e, b);
    forall o | o in all
      ensures o in cur[e := w] && o.View() == cur[e := w][o]
    {
      if o != e {
        assert o.View() == old(o.View());
      }
    }
    roster' := if e.vivo then roster else Remove(roster, j);
  }

  /** A tower; `TorreAtaque` and `TorreCongelacion` differ only in `kind`. */
  class Torre {
    const kind: TowerKind
    const dano: int
    const rango: int
    const x: int
    const y: int
    const shotInterval: int
    var balas: seq<Bala>
    var lastShotTime: int

    function State(): Tower
      reads this
    {
      Tower(kind, dano, rango, x, y, shotInterval, balas, lastShotTime)
    }

    /** `new TorreAtaque(x, y, shotInterval)` or
        `new TorreCongelacion(x, y, shotInterval)`. */
    constructor (kind: TowerKind, x: int, y: int, shotInterval: int)
      ensures State() == NewTower(kind, x, y, shotInterval)
    {
      var t := NewTower(kind, x, y, shotInterval);
      this.kind := kind;
      dano := t.dano;
      rango := t.rango;
      this.x := x;
      this.y := y;
      this.shotInterval := shotInterval;
      balas := [];
      lastShotTime := 0;
    }

    /** `Torre.updateBullets`: `roster` is the list `enemigos` after the
        iterator removals. `st` records the enemies' states on entry. */
    method UpdateBullets(enemigos: seq<Enemigo>, ghost st: map<Enemigo, EnemyView>) returns (roster: seq<Enemigo>)
      requires Agrees(enemigos, st)
      modifies this`balas, enemigos`salud, enemigos`vivo, enemigos`congelado
      ensures var r := UpdateSpec(old(balas), enemigos, st);
        && balas == r.bullets && roster == r.roster
        && forall e :: e in enemigos ==> e.View() == r.views[e]
    {
      ghost var bs0 := balas;
      ghost var spec := UpdateSpec(bs0, enemigos, st);
      ghost var cur := st;
      ghost var n := 0;
      ghost var done: seq<Bala> := [];
      roster := enemigos;
      var i := 0;
      while i < |balas|
        invariant 0 <= n <= |bs0| && i == |done|
        invariant balas == done + bs0[n..]
        invariant Covers(roster, cur) && cur.Keys == st.Keys
        invariant forall e :: e in roster ==> e in enemigos
        invariant Agrees(enemigos, cur)
        invariant spec == Prepend(done, UpdateSpec(bs0[n..], roster, cur))
        decreases |bs0| - n
      {
        ghost var s := BulletStep(bs0[n], roster, cur);
        UpdateStepAt(bs0, n, done, roster, cur);
        roster, i := MoveBullet(i, roster, enemigos, cur, done, bs0[n], bs0[n + 1..]);
        cur := s.views;
        done := done + s.bullets;
        n := n + 1;
      }
    }

    /** One pass of the outer loop of `updateBullets`, on the bullet at
        index `i`: the bullet moves; if it hits an enemy of `roster` it is
        removed from the list (and the enemy too when the hit killed it),
        otherwise it stays at `i`, moved, and the pass goes on at `next`,
        the index of the bullet after it. `all` is the whole list the
        roster is drawn from and `cur` the enemies' recorded states. */
    method MoveBullet(i: nat, roster: seq<Enemigo>, ghost all: seq<Enemigo>, ghost cur: map<Enemigo, EnemyView>,
                      ghost done: seq<Bala>, ghost b0: Bala, ghost later: seq<Bala>)
      returns (roster': seq<Enemigo>, next: nat)
      requires balas == done + ([b0] + later) && i == |done|
      requires Covers(roster, cur) && Agrees(all, cur)
      requires forall e :: e in roster ==> e in all
      modifies this`balas, all`salud, all`vivo, all`congelado
      ensures roster' == BulletStep(b0, roster, cur).roster
      ensures Agrees(all, BulletStep(b0, roster, cur).views)
      ensures balas == done + BulletStep(b0, roster, cur).bullets + later
      ensures next == |done + BulletStep(b0, roster, cur).bullets|
    {
      var bs := balas;
      assert bs[..i] == done && bs[i] == b0 && bs[i + 1..] == later;
      ghost var s := BulletStep(b0, roster, cur);
      ViewsAgree(roster, cur);
      var b := Mover(bs[i]);
      var j := ScanHit(b, roster);
      if j < |roster| {
        ghost var w := Struck(cur[roster[j]], b);
        assert s == Outcome([], if w.vivo then roster else Remove(roster, j), cur[roster[j] := w]);
        assert roster[j] in all;
        roster' := Hit(roster, j, roster[j], b, all, cur);
        assert done + s.bullets == done by {
          assert s.bullets == [];
        }
        balas := bs[..i] + bs[i + 1..];
        next := i;
      } else {
        assert s == Outcome([b], roster, cur);
        balas := bs[..i] + [b] + bs[i + 1..];
        roster' := roster;
        next := i + 1;
      }
    }

    /** `TorreAtaque.disparar` / `TorreCongelacion.disparar` at time
        `now`, the value of `System.currentTimeMillis()`. */
    method Disparar(enemigos: seq<Enemigo>, now: int)
      modifies this`balas, this`lastShotTime
      ensures State() == Fire(old(State()), Views(enemigos), now)
    {
      if now - lastShotTime > shotInterval {
        ghost var vs := Views(enemigos);
        var j := 0;
        while j < |enemigos|
          invariant 0 <= j <= |enemigos|
          invariant State() == old(State())
          invariant forall k :: 0 <= k < j ==> !Qualifies(State(), vs[k])
        {
          var e := enemigos[j];
          if SqDist(x, y, e.x, e.y) <= rango * rango && e.vivo {
            assert FirstTarget(State(), vs) == Some(j);
            balas := balas + [Shot(State(), e.View())];
            lastShotTime := now;
            return;
          }
          j := j + 1;
        }
        assert FirstTarget(State(), vs) == None;
      }
    }
  }

  /** `WaveManager`: the wave counter, the semaphore's permit and whether
      the scheduler is running. */
  class WaveManager {
    var enemiesPerWave: int
    var gateFree: bool
    /** Whether `launchWave` is scheduled every 20 seconds. */
    var scheduled: bool

    constructor ()
      ensures enemiesPerWave == EnemiesPerWaveInicial && gateFree && !scheduled
    {
      enemiesPerWave := EnemiesPerWaveInicial;
      gateFree := true;
      scheduled := false;
    }

    /** `start`: schedules the waves. */
    method Start()
      modifies this`scheduled
      ensures scheduled
    {
      scheduled := true;
    }

    /** `launchWave`: one `addEnemigo` on `panel` per enemy of the wave. */
    method LaunchWave(panel: GamePanel)
      modifies this`enemiesPerWave, this`gateFree, panel`enemigos
      ensures var l := WaveRules.LaunchWave(Wave(old(gateFree), old(enemiesPerWave)));
        && gateFree == l.next.gateFree && enemiesPerWave == l.next.enemiesPerWave
        && |panel.enemigos| == |old(panel.enemigos)| + l.spawns
        && panel.enemigos[..|old(panel.enemigos)|] == old(panel.enemigos)
        && forall k :: |old(panel.enemigos)| <= k < |panel.enemigos| ==> fresh(panel.enemigos[k]) && Spawned(panel, panel.enemigos[k])
    {
      if gateFree {
        gateFree := false;
        var i := 0;
        while i < enemiesPerWave
          invariant 0 <= i <= Count(enemiesPerWave)
          invariant enemiesPerWave == old(enemiesPerWave) && !gateFree
          invariant |panel.enemigos| == |old(panel.enemigos)| + i
          invariant panel.enemigos[..|old(panel.enemigos)|] == old(panel.enemigos)
          invariant forall k :: |old(panel.enemigos)| <= k < |panel.enemigos| ==> fresh(panel.enemigos[k]) && Spawned(panel, panel.enemigos[k])
        {
          panel.AddEnemigo();
          i := i + 1;
        }
        enemiesPerWave := enemiesPerWave + 1;
        gateFree := true;
      }
    }

    /** `stop`: shuts the scheduler down. */
    method Stop()
      modifies this`scheduled
      ensures !scheduled
    {
      scheduled := false;
    }

    /** `reset`: stops and replaces the scheduler but does not start the new
        one, and keeps the wave counter. */
    method Reset()
      modifies this`scheduled
      ensures !scheduled
    {
      Stop();
    }
  }

  /** `e` is as `addEnemigo` creates it on `panel`: at the path's start
      with full health, its walk not begun. */
  predicate Spawned(panel: GamePanel, e: Enemigo)
    reads e
  {
    e.View() == Spawn(SaludEnemigo) && e.fase == Start && e.panel == panel
  }

  /** The towers of `ts` are in the states `tm` records. */
  predicate Recorded(ts: seq<Torre>, tm: map<Torre, Tower>)
    reads ts
  {
    forall t :: t in ts ==> t in tm && t.State() == tm[t]
  }

  /** The states of the towers of `ts`. */
  function TowerSnapshot(ts: seq<Torre>): (tm: map<Torre, Tower>)
    reads ts
    ensures TowersCovered(ts, tm) && forall t :: t in ts ==> tm[t] == t.State()
  {
    map t | t in ts :: t.State()
  }

  /** `torre.updateBullets(enemigos)` inside the loop of `updateGame`:
      `all` is the roster the tick began with, of which `enemigos` is what
      is left, and `st` the recorded states of its enemies; `views` are
      their states afterwards. */
  method Sweep(t: Torre, enemigos: seq<Enemigo>, ghost all: seq<Enemigo>, ghost st: map<Enemigo, EnemyView>)
    returns (roster: seq<Enemigo>, ghost views: map<Enemigo, EnemyView>)
    requires Agrees(all, st) && forall e :: e in enemigos ==> e in all
    modifies t`balas, all`salud, all`vivo, all`congelado
    ensures Covers(enemigos, st)
    ensures var u := UpdateSpec(old(t.balas), enemigos, st);
      roster == u.roster && views == u.views && t.balas == u.bullets
    ensures Agrees(all, views) && forall e :: e in roster ==> e in all
  {
    ghost var u := UpdateSpec(t.balas, enemigos, st);
    assert forall e :: e in u.roster ==> e in enemigos by {
      UpdateShrinksRoster(t.balas, enemigos, st);
      SubseqMembers(u.roster, enemigos);
    }
    assert forall e :: e in st && e !in enemigos ==> u.views[e] == st[e] by {
      UpdateTouchesOnlyRoster(t.balas, enemigos, st);
    }
    assert forall k :: 0 <= k < |enemigos| ==> enemigos[k] in all;
    label BeforeUpdate:
    roster := t.UpdateBullets(enemigos, st);
    forall e | e in all
      ensures e in u.views && e.View() == u.views[e]
    {
      if e !in enemigos {
        assert e.View() == old@BeforeUpdate(e.View());
      }
    }
    views := u.views;
  }

  /** The body of the loop of `updateGame` for tower `t`: `Sweep`, then
      `torre.disparar` on the roster that pass leaves. */
  method TowerStep(t: Torre, enemigos: seq<Enemigo>, now: int, ghost all: seq<Enemigo>,
                   ghost st: map<Enemigo, EnemyView>)
    returns (roster: seq<Enemigo>, ghost views: map<Enemigo, EnemyView>)
    requires Agrees(all, st) && forall e :: e in enemigos ==> e in all
    modifies t`balas, t`lastShotTime, all`salud, all`vivo, all`congelado
    ensures Covers(enemigos, st)
    ensures var u := UpdateSpec(old(t.balas), enemigos, st);
      && roster == u.roster && views == u.views
      && t.State() == Fire(old(t.State()).(balas := u.bullets), Lookup(u.roster, u.views), now)
    ensures Agrees(all, views) && forall e :: e in roster ==> e in all
  {
    ghost var u := UpdateSpec(t.balas, enemigos, st);
    ghost var updated := t.State().(balas := u.bullets);
    roster, views := Sweep(t, enemigos, all, st);
    assert t.State() == updated;
    assert Views(roster) == Lookup(u.roster, u.views) by {
      ViewsAgree(roster, views);
    }
    t.Disparar(roster, now);
  }

  /** One iteration of the loop of `updateGame`, on tower `t` at index `i`
      of `ts`: the iteration performs the first step of `TickSpec` from
      `i` on, and the other towers keep their recorded states. */
  method Turn(t: Torre, enemigos: seq<Enemigo>, now: int, ghost all: seq<Enemigo>, ghost st: map<Enemigo, EnemyView>,
              ghost ts: seq<Torre>, ghost i: nat, ghost tm: map<Torre, Tower>)
    returns (roster: seq<Enemigo>, ghost views: map<Enemigo, EnemyView>)
    requires i < |ts| && ts[i] == t && Recorded(ts, tm)
    requires Agrees(all, st) && forall e :: e in enemigos ==> e in all
    modifies t`balas, t`lastShotTime, all`salud, all`vivo, all`congelado
    ensures Recorded(ts, tm[t := t.State()])
    ensures Agrees(all, views)
    ensures forall e :: e in roster ==> e in all
    ensures TickSpec(ts[i..], tm, enemigos, st, now) == TickSpec(ts[i + 1..], tm[t := t.State()], roster, views, now)
  {
    assert TowersCovered(ts, tm) && tm[t] == t.State();
    label Before:
    roster, views := TowerStep(t, enemigos, now, all, st);
    TickStepAt(ts, i, tm, enemigos, st, now);
    forall o | o in ts
      ensures o in tm[t := t.State()] && o.State() == tm[t := t.State()][o]
    {
      if o != t {
        assert o.State() == old@Before(o.State());
      }
    }
  }

  /** The loop of `updateGame` over the towers `ts` with roster `es`:
      each tower in turn updates its bullets and fires, as `TickSpec`
      specifies; the result is the roster the loop leaves. */
  method RunTowers(ts: seq<Torre>, es: seq<Enemigo>, now: int) returns (roster: seq<Enemigo>)
    modifies ts`balas, ts`lastShotTime, es`salud, es`vivo, es`congelado
    ensures var r := TickSpec(ts, old(TowerSnapshot(ts)), es, old(Snapshot(es)), now);
      && roster == r.roster
      && (forall t :: t in ts ==> t.State() == r.towers[t])
      && forall e :: e in es ==> e.View() == r.views[e]
  {
    ghost var tm0 := TowerSnapshot(ts);
    ghost var st0 := Snapshot(es);
    ghost var goal: Tick<Torre, Enemigo> := TickSpec(ts, tm0, es, st0, now);
    ghost var tm: map<Torre, Tower> := tm0;
    ghost var st: map<Enemigo, EnemyView> := st0;
    roster := es;
    var i := 0;
    while i < |ts|
      invariant 0 <= i <= |ts|
      invariant Recorded(ts, tm)
      invariant Agrees(es, st)
      invariant forall e :: e in roster ==> e in es
      invariant goal == TickSpec(ts[i..], tm, roster, st, now)
    {
      var t := ts[i];
      roster, st := Turn(t, roster, now, es, st, ts, i, tm);
      tm := tm[t := t.State()];
      i := i + 1;
    }
    assert ts[i..] == [];
  }

  /** `GamePanel`. */
  class GamePanel {
    var torres: seq<Torre>
    var enemigos: seq<Enemigo>
    var base: Base
    var juegoActivo: bool
    /** Whether the 40 ms Swing timer that calls `updateGame` runs. */
    var timerRunning: bool
    const waveManager: WaveManager

    /** The constructor: a base with 100 health at (750, 50), the timer
        started and the waves scheduled. */
    constructor ()
      ensures torres == [] && enemigos == [] && juegoActivo && timerRunning
      ensures fresh(base) && base.salud == SaludInicial && base.x == BaseX && base.y == BaseY
      ensures fresh(waveManager) && waveManager.scheduled && waveManager.gateFree
      ensures waveManager.enemiesPerWave == EnemiesPerWaveInicial
    {
      torres := [];
      enemigos := [];
      base := new Base(SaludInicial, BaseX, BaseY);
      juegoActivo := true;
      timerRunning := true;
      var wm := new WaveManager();
      wm.Start();
      waveManager := wm;
    }

    /** `updateGame` at time `now`: with the game inactive it stops the
        timer; otherwise every tower in turn moves its bullets and fires,
        as `TickSpec` specifies. */
    method UpdateGame(now: int)
      modifies this`enemigos, this`timerRunning, torres`balas, torres`lastShotTime
      modifies enemigos`salud, enemigos`vivo, enemigos`congelado
      ensures !old(juegoActivo) ==>
        && !timerRunning && enemigos == old(enemigos)
        && (forall t :: t in torres ==> t.State() == old(t.State()))
        && forall e :: e in enemigos ==> e.View() == old(e.View())
      ensures old(juegoActivo) ==>
        var r := TickSpec(torres, old(TowerSnapshot(torres)), old(enemigos), old(Snapshot(enemigos)), now);
        && timerRunning == old(timerRunning) && enemigos == r.roster
        && (forall t :: t in torres ==> t.State() == r.towers[t])
        && forall e :: e in old(enemigos) ==> e.View() == r.views[e]
    {
      if !juegoActivo {
        timerRunning := false;
        return;
      }
      enemigos := RunTowers(torres, enemigos, now);
    }

    /** `addTorre`. */
    method AddTorre(torre: Torre)
      modifies this`torres
      ensures torres == old(torres) + [torre]
    {
      torres := torres + [torre];
    }

    /** `addEnemigo`: one new enemy at the end of the roster (its thread
        start becomes the enemy's `Step`). */
    method AddEnemigo()
      modifies this`enemigos
      ensures |enemigos| == |old(enemigos)| + 1 && enemigos[..|old(enemigos)|] == old(enemigos)
      ensures fresh(enemigos[|old(enemigos)|]) && Spawned(this, enemigos[|old(enemigos)|])
    {
      var e := new Enemigo(SaludEnemigo, this);
      enemigos := enemigos + [e];
    }

    /** `resetGame`: empty lists, a new base with 1000 health, the game
        active and the timer running, and the waves stopped with the wave
        counter kept. */
    method ResetGame()
      modifies this`juegoActivo, this`timerRunning, this`enemigos, this`torres, this`base, waveManager`scheduled
      ensures torres == [] && enemigos == [] && juegoActivo && timerRunning
      ensures fresh(base) && base.salud == SaludTrasReinicio && base.x == BaseX && base.y == BaseY
      ensures !waveManager.scheduled && waveManager.enemiesPerWave == old(waveManager.enemiesPerWave)
    {
      juegoActivo := false;
      timerRunning := false;
      waveManager.Stop();
      enemigos := [];
      torres := [];
      base := new Base(SaludTrasReinicio, BaseX, BaseY);
      juegoActivo := true;
      timerRunning := true;
      waveManager.Reset();
    }

    /** `isJuegoActivo`. */
    function IsJuegoActivo(): (b: bool)
      reads this
      ensures b <==> juegoActivo
    {
      juegoActivo
    }

    /** `setJuegoActivo`. */
    method SetJuegoActivo(activo: bool)
      modifies this`juegoActivo
      ensures juegoActivo == activo
    {
      juegoActivo := activo;
    }
  }

  /** The frame: the panel and the index of the next free tower slot. */
  class TowerDefenseFrame {
    const gamePanel: GamePanel
    var indicePosicionActual: nat

    constructor ()
      ensures fresh(gamePanel) && indicePosicionActual == 0
      ensures gamePanel.torres == [] && gamePanel.enemigos == [] && gamePanel.juegoActivo
      ensures fresh(gamePanel.base) && gamePanel.base.salud == SaludInicial
      ensures gamePanel.base.x == BaseX && gamePanel.base.y == BaseY
      ensures gamePanel.timerRunning && fresh(gamePanel.waveManager) && gamePanel.waveManager.scheduled
      ensures gamePanel.waveManager.gateFree && gamePanel.waveManager.enemiesPerWave == EnemiesPerWaveInicial
    {
      gamePanel := new GamePanel();
      indicePosicionActual := 0;
    }

    /** The "Add Attack Tower" button (shot interval 1000 ms). */
    method AddAttackTower()
      modifies this`indicePosicionActual, gamePanel`torres
      ensures Placed(this, Ataque, IntervaloAtaque)
    {
      AddTower(Ataque, IntervaloAtaque);
    }

    /** The "Add Freeze Tower" button (shot interval 2000 ms). */
    method AddFreezeTower()
      modifies this`indicePosicionActual, gamePanel`torres
      ensures Placed(this, Congelacion, IntervaloCongelacion)
    {
      AddTower(Congelacion, IntervaloCongelacion);
    }

    method AddTower(kind: TowerKind, shotInterval: int)
      modifies this`indicePosicionActual, gamePanel`torres
      ensures Placed(this, kind, shotInterval)
    {
      if indicePosicionActual < |Slots| {
        var p := Slots[indicePosicionActual];
        indicePosicionActual := indicePosicionActual + 1;
        var t := new Torre(kind, p.x, p.y, shotInterval);
        gamePanel.AddTorre(t);
      }
    }

    /** The "Spawn Enemy" button. */
    method SpawnEnemy()
      modifies gamePanel`enemigos
      ensures |gamePanel.enemigos| == |old(gamePanel.enemigos)| + 1
      ensures gamePanel.enemigos[..|old(gamePanel.enemigos)|] == old(gamePanel.enemigos)
      ensures fresh(gamePanel.enemigos[|old(gamePanel.enemigos)|])
      ensures Spawned(gamePanel, gamePanel.enemigos[|old(gamePanel.enemigos)|])
    {
      gamePanel.AddEnemigo();
    }
  }

  /** One press of a tower button: while a slot is left, a fresh tower of
      `kind` on the slot `Place` hands out is appended to the panel's list
      and the index moves on; otherwise nothing changes. */
  twostate predicate Placed(f: TowerDefenseFrame, kind: TowerKind, shotInterval: int)
    reads f, f.gamePanel, f.gamePanel.torres
  {
    var p := Place(Slots, old(f.indicePosicionActual));
    && f.indicePosicionActual == p.indice
    && (p.slot.None? ==> f.gamePanel.torres == old(f.gamePanel.torres))
    && (p.slot.Some? ==>
          && |f.gamePanel.torres| == |old(f.gamePanel.torres)| + 1
          && f.gamePanel.torres[..|old(f.gamePanel.torres)|] == old(f.gamePanel.torres)
          && fresh(f.gamePanel.torres[|old(f.gamePanel.torres)|])
          && f.gamePanel.torres[|old(f.gamePanel.torres)|].State()
             == NewTower(kind, p.slot.value.x, p.slot.value.y, shotInterval))
  }
}
