/** The wave counter of `WaveManager.launchWave`, with the semaphore as a
    boolean gate (its single permit). */
module WaveRules {

  /** Enemies in the first wave. */
  const EnemiesPerWaveInicial: int := 5

  /** The gate's permit and the size of the next wave. */
  datatype Wave = Wave(gateFree: bool, enemiesPerWave: int)

  /** How many spawn requests a wave issues, and the state afterwards. */
  datatype Launch = Launch(spawns: nat, next: Wave)

  /** The loop `for (i = 0; i < enemiesPerWave; i++)` runs this often. */
  function Count(n: int): nat
  {
    if n < 0 then 0 else n
  }

  /** `launchWave`: with the permit free it requests one spawn per enemy
      of the wave, grows the next wave by one and gives the permit back;
      with the permit held it does nothing. */
  function LaunchWave(w: Wave): Launch
  {
    if w.gateFree then Launch(Count(w.enemiesPerWave), Wave(true, w.enemiesPerWave + 1))
    else Launch(0, w)
  }

  /** `k` consecutive launches: the spawns requested in all and the final
      state. */
  function Launches(w: Wave, k: nat): Launch
    decreases k
  {
    if k == 0 then Launch(0, w)
    else
      var l := LaunchWave(w);
      var rest := Launches(l.next, k - 1);
      Launch(l.spawns + rest.spawns, rest.next)
  }

  /** From any free state with a non-negative wave size `n`, `k` launches
      request `n + (n + 1) + ... + (n + k - 1)` enemies, grow the wave size
      by `k` and leave the permit free. */
  lemma {:induction false} LaunchesGrowLinearly(n: int, k: nat)
    requires n >= 0
    ensures Launches(Wave(true, n), k) == Launch(k * n + k * (k - 1) / 2, Wave(true, n + k))
    decreases k
  {
    if k > 0 {
      LaunchesGrowLinearly(n + 1, k - 1);
      assert (k - 1) * (n + 1) + (k - 1) * (k - 2) / 2 + n == k * n + k * (k - 1) / 2 by {
        assert (k - 1) * (k - 2) + 2 * (k - 1) == k * (k - 1);
        assert (k - 1) * (n + 1) + n == k * n + (k - 1);
      }
    }
  }

  /** The game's waves, from the counter's initial value: the `k`-th wave
      (counting from 1) has `4 + k` enemies. */
  lemma GameWaves(k: nat)
    ensures Launches(Wave(true, EnemiesPerWaveInicial), k).spawns == 5 * k + k * (k - 1) / 2
    ensures Launches(Wave(true, EnemiesPerWaveInicial), k).next.enemiesPerWave == EnemiesPerWaveInicial + k
  {
    LaunchesGrowLinearly(EnemiesPerWaveInicial, k);
  }

  /** While the permit is held every launch is skipped, not queued: no
      spawns and no change to the counter. */
  lemma {:induction false} HeldGateSkips(w: Wave, k: nat)
    requires !w.gateFree
    ensures Launches(w, k) == Launch(0, w)
    decreases k
  {
    if k > 0 {
      HeldGateSkips(w, k - 1);
    }
  }
}
