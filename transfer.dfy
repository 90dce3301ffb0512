/**
 * The decibel-to-intensity transfer of the spectrogram (`dbTo01`): a bin's
 * level in dB is normalised between the black floor and the analyser's
 * ceiling, clamped to [0, 1], forced to 0 under the cutoff threshold and
 * finally shaped by the gamma curve.
 *
 * `Math.pow(t, gamma)` is not computed here: the gamma curve is a parameter
 * `shape`, of which only what the pipeline relies on is assumed (ValidShape).
 */
module Transfer {
  import opened Arith

  /** The "shadow" parameters: the floor below which everything is black and the cutoff threshold. */
  datatype Params = Params(blackDb: real, cutoff: real)

  /** The script's parameters: black at -100 dB, no cutoff. (The gamma, 1.2, is the `shape` argument.) */
  const DefaultParams: Params := Params(-100.0, 0.0)

  /**
   * The ceiling: the analyser's `maxDecibels`, which the analyser setup sets
   * to -30 dB, and also the value used when no analyser exists.
   */
  const AnalyserMaxDb: real := -30.0

  /** What the pipeline relies on from `t => Math.pow(t, gamma)`: monotone on [0, 1], fixing 0 and 1. */
  ghost predicate ValidShape(shape: real -> real) {
    && shape(0.0) == 0.0
    && shape(1.0) == 1.0
    && forall x, y :: 0.0 <= x <= y <= 1.0 ==> shape(x) <= shape(y)
  }

  /** `Math.max(0, Math.min(1, t))`. */
  function Clamp01(t: real): (c: real)
    ensures 0.0 <= c <= 1.0
    ensures t <= 0.0 ==> c == 0.0
    ensures t >= 1.0 ==> c == 1.0
    ensures 0.0 <= t <= 1.0 ==> c == t
  {
    if t < 0.0 then 0.0 else if t > 1.0 then 1.0 else t
  }

  /** The level of `db` between the floor and the ceiling, before cutoff and gamma. */
  function Normalized(db: real, maxDb: real, p: Params): (t: real)
    requires maxDb > p.blackDb
    ensures 0.0 <= t <= 1.0
    ensures db <= p.blackDb ==> t == 0.0
    ensures db >= maxDb ==> t == 1.0
  {
    var range := maxDb - p.blackDb;
    var q := (db - p.blackDb) / range;
    assert q * range == db - p.blackDb;
    assert db <= p.blackDb ==> q <= 0.0;
    assert db >= maxDb ==> q >= 1.0 by {
      if db >= maxDb {
        QuotientBelow(range, db - p.blackDb, range);
      }
    }
    Clamp01(q)
  }

  /** `dbTo01(db)`: the intensity in [0, 1] a bin level `db` is drawn with. */
  function DbTo01(db: real, maxDb: real, p: Params, shape: real -> real): (v: real)
    requires maxDb > p.blackDb
    requires ValidShape(shape)
    ensures 0.0 <= v <= 1.0
    ensures db <= p.blackDb ==> v == 0.0
    ensures db >= maxDb && p.cutoff <= 1.0 ==> v == 1.0
    ensures Normalized(db, maxDb, p) < p.cutoff ==> v == 0.0
  {
    var t := Normalized(db, maxDb, p);
    var t' := if t < p.cutoff then 0.0 else t;
    assert shape(0.0) <= shape(t') <= shape(1.0);
    shape(t')
  }

  /** The normalisation never decreases as the level rises. */
  lemma NormalizedMonotone(db1: real, db2: real, maxDb: real, p: Params)
    requires maxDb > p.blackDb
    requires db1 <= db2
    ensures Normalized(db1, maxDb, p) <= Normalized(db2, maxDb, p)
  {
    QuotientBelow(db1 - p.blackDb, db2 - p.blackDb, maxDb - p.blackDb);
  }

  /**
   * `dbTo01` is monotone non-decreasing in the level: a louder bin is never
   * drawn darker, whatever the cutoff.
   */
  lemma DbTo01Monotone(db1: real, db2: real, maxDb: real, p: Params, shape: real -> real)
    requires maxDb > p.blackDb
    requires ValidShape(shape)
    requires db1 <= db2
    ensures DbTo01(db1, maxDb, p, shape) <= DbTo01(db2, maxDb, p, shape)
  {
    var t1, t2 := Normalized(db1, maxDb, p), Normalized(db2, maxDb, p);
    NormalizedMonotone(db1, db2, maxDb, p);
    var s1 := if t1 < p.cutoff then 0.0 else t1;
    var s2 := if t2 < p.cutoff then 0.0 else t2;
    assert s1 <= s2;
    assert shape(s1) <= shape(s2);
  }

  /** With the script's own parameters, every level at or under -100 dB is 0 and every level at or over -30 dB is 1. */
  lemma DefaultTransferEnds(db: real, shape: real -> real)
    requires ValidShape(shape)
    ensures db <= -100.0 ==> DbTo01(db, AnalyserMaxDb, DefaultParams, shape) == 0.0
    ensures db >= -30.0 ==> DbTo01(db, AnalyserMaxDb, DefaultParams, shape) == 1.0
  {
  }
}
