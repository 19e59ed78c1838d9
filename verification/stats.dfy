/**
 The stat store of the game (HPPointsManager in hp_points.js): hit points
 clamped to [0, 100] and points clamped below at 0 with no upper bound.
 Every operation is total: out-of-range values are silently normalised,
 never rejected.
 */
module Stats {

  const MinHP: int := 0
  const MaxHP: int := 100
  const DefaultHP: int := 100
  const DefaultPoints: int := 0

  /** Player stats. The getters getHP and getPoints are the two fields. */
  datatype Stats = Stats(hp: int, points: int)

  /** The invariant every clamped assignment establishes. */
  predicate Valid(s: Stats) {
    MinHP <= s.hp <= MaxHP && s.points >= 0
  }

  /** Distance between two integers, used to characterise clamping. */
  function Dist(a: int, b: int): nat {
    if a <= b then b - a else a - b
  }

  /** Math.max(lo, Math.min(hi, v)): the point of [lo, hi] nearest to v. */
  function Clamp(v: int, lo: int, hi: int): (r: int)
    requires lo <= hi
    ensures lo <= r <= hi
    ensures lo <= v <= hi ==> r == v
    ensures forall x :: lo <= x <= hi ==> Dist(r, v) <= Dist(x, v)
  {
    if v < lo then lo else if v > hi then hi else v
  }

  /** Math.max(0, v): the least non-negative integer nearest to v. */
  function AtLeastZero(v: int): (r: int)
    ensures r >= 0
    ensures v >= 0 ==> r == v
    ensures forall x :: x >= 0 ==> Dist(r, v) <= Dist(x, v)
  {
    if v < 0 then 0 else v
  }

  /** The constructor: a fresh manager holds the defaults. */
  function New(): (r: Stats)
    ensures r.hp == DefaultHP && r.points == DefaultPoints
    ensures Valid(r)
    ensures IsAlive(r)
  {
    Stats(DefaultHP, DefaultPoints)
  }

  /** setHP: store the value clamped to [0, 100]; points are untouched. */
  function SetHP(s: Stats, value: int): (r: Stats)
    ensures MinHP <= r.hp <= MaxHP
    ensures MinHP <= value <= MaxHP ==> r.hp == value
    ensures value < MinHP ==> r.hp == MinHP
    ensures value > MaxHP ==> r.hp == MaxHP
    ensures r.points == s.points
  {
    s.(hp := Clamp(value, MinHP, MaxHP))
  }

  /** setPoints: store max(0, value); hp is untouched. */
  function SetPoints(s: Stats, value: int): (r: Stats)
    ensures r.points >= 0
    ensures value >= 0 ==> r.points == value
    ensures value < 0 ==> r.points == 0
    ensures r.hp == s.hp
  {
    s.(points := AtLeastZero(value))
  }

  /** addHP: add a signed amount, then clamp to [0, 100]. */
  function AddHP(s: Stats, amount: int): (r: Stats)
    ensures MinHP <= r.hp <= MaxHP
    ensures MinHP <= s.hp + amount <= MaxHP ==> r.hp == s.hp + amount
    ensures s.hp + amount < MinHP ==> r.hp == MinHP
    ensures s.hp + amount > MaxHP ==> r.hp == MaxHP
    ensures r.points == s.points
  {
    s.(hp := Clamp(s.hp + amount, MinHP, MaxHP))
  }

  /** addPoints: add a signed amount, then clamp below at 0. */
  function AddPoints(s: Stats, amount: int): (r: Stats)
    ensures r.points >= 0
    ensures s.points + amount >= 0 ==> r.points == s.points + amount
    ensures s.points + amount < 0 ==> r.points == 0
    ensures r.hp == s.hp
  {
    s.(points := AtLeastZero(s.points + amount))
  }

  /** reset: back to the defaults, whatever the current values. */
  function Reset(s: Stats): (r: Stats)
    ensures r.hp == DefaultHP && r.points == DefaultPoints
    ensures Valid(r)
  {
    New()
  }

  /** isAlive: true exactly when hp is positive. */
  predicate IsAlive(s: Stats)
    ensures Valid(s) ==> (IsAlive(s) <==> s.hp != MinHP)
  {
    s.hp > 0
  }

  /** Clamp has exactly one possible result: any point of [lo, hi] that is
      at least as near to v as every other point of the range is Clamp's. */
  lemma ClampUnique(v: int, lo: int, hi: int, r: int)
    requires lo <= r <= hi
    requires forall x :: lo <= x <= hi ==> Dist(r, v) <= Dist(x, v)
    ensures r == Clamp(v, lo, hi)
  {
    var c := Clamp(v, lo, hi);
    assert Dist(r, v) <= Dist(c, v);
    assert Dist(c, v) <= Dist(r, v);
    if v < lo {
      assert c == lo;
    } else if v > hi {
      assert c == hi;
    } else {
      assert Dist(c, v) == 0;
    }
  }

  /** addHP(a) is setHP(hp + a), and setting the same value twice is
      the same as setting it once. */
  lemma AddHPIsSetHP(s: Stats, amount: int, value: int)
    ensures AddHP(s, amount) == SetHP(s, s.hp + amount)
    ensures SetHP(SetHP(s, value), value) == SetHP(s, value)
    ensures AddPoints(s, amount) == SetPoints(s, s.points + amount)
    ensures SetPoints(SetPoints(s, value), value) == SetPoints(s, value)
  {
  }

  /** reset restores the defaults from any state and is idempotent. */
  lemma ResetRestoresDefaults(s: Stats)
    ensures Reset(s) == New()
    ensures Reset(Reset(s)) == Reset(s)
    ensures Reset(s).hp == 100 && Reset(s).points == 0
  {
  }

  /** isAlive holds exactly when hp is positive; a fresh store is alive
      and an hp hit of 100 or more from any state is fatal. */
  lemma AliveIffPositive(s: Stats, hit: int)
    requires Valid(s)
    ensures IsAlive(s) <==> s.hp > 0
    ensures IsAlive(New())
    ensures hit <= -MaxHP ==> !IsAlive(AddHP(s, hit))
  {
  }

  /** Applying a sequence of addHP calls in order. */
  function AddHPAll(s: Stats, amounts: seq<int>): Stats
    decreases |amounts|
  {
    if |amounts| == 0 then s else AddHPAll(AddHP(s, amounts[0]), amounts[1..])
  }

  /** Applying a sequence of addPoints calls in order. */
  function AddPointsAll(s: Stats, amounts: seq<int>): Stats
    decreases |amounts|
  {
    if |amounts| == 0 then s else AddPointsAll(AddPoints(s, amounts[0]), amounts[1..])
  }

  /** For every sequence of addHP calls from a valid state, hp stays in
      [0, 100] and points never move. */
  lemma {:induction false} AddHPAllInRange(s: Stats, amounts: seq<int>)
    requires Valid(s)
    ensures Valid(AddHPAll(s, amounts))
    ensures AddHPAll(s, amounts).points == s.points
    decreases |amounts|
  {
    if |amounts| > 0 {
      AddHPAllInRange(AddHP(s, amounts[0]), amounts[1..]);
    }
  }

  /** For every sequence of addPoints calls from a valid state, points stay
      non-negative and hp never moves. */
  lemma {:induction false} AddPointsAllNonNegative(s: Stats, amounts: seq<int>)
    requires Valid(s)
    ensures Valid(AddPointsAll(s, amounts))
    ensures AddPointsAll(s, amounts).hp == s.hp
    decreases |amounts|
  {
    if |amounts| > 0 {
      AddPointsAllNonNegative(AddPoints(s, amounts[0]), amounts[1..]);
    }
  }

  /** Total of a sequence of deltas. */
  function Sum(amounts: seq<int>): int
    decreases |amounts|
  {
    if |amounts| == 0 then 0 else amounts[0] + Sum(amounts[1..])
  }

  /** A sequence of point deltas whose running sums never go negative is
      applied exactly: the result is the start plus the total. */
  lemma {:induction false} AddPointsAllExact(s: Stats, amounts: seq<int>)
    requires forall k :: 0 <= k <= |amounts| ==> s.points + Sum(amounts[..k]) >= 0
    ensures AddPointsAll(s, amounts).points == s.points + Sum(amounts)
    decreases |amounts|
  {
    if |amounts| > 0 {
      var t := AddPoints(s, amounts[0]);
      assert amounts[..1] == [amounts[0]];
      assert Sum([amounts[0]]) == amounts[0] + Sum([]);
      assert t.points == s.points + amounts[0];
      forall k | 0 <= k <= |amounts[1..]|
        ensures t.points + Sum(amounts[1..][..k]) >= 0
      {
        assert amounts[..k + 1][1..] == amounts[1..][..k];
        assert Sum(amounts[..k + 1]) == amounts[0] + Sum(amounts[1..][..k]);
      }
      AddPointsAllExact(t, amounts[1..]);
      assert amounts[..|amounts|] == amounts;
    } else {
      assert amounts[..0] == [];
    }
  }

  /** The scene6 "no" choice charges -250; from 100 points it floors at 0. */
  lemma PenaltyFloorsAtZero(s: Stats)
    requires s.points == 100
    ensures AddPoints(s, -250).points == 0
    ensures AddPoints(s, -250).hp == s.hp
  {
  }
}
