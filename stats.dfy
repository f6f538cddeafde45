/**
 * The stat builder of `pokemonStats`: each decoded `(base_stat, stat.name)`
 * record becomes a `Stat` whose percentage is the base scaled against the
 * largest base stat the game has, 255.
 *
 * Go's `int` is 64 bits wide on a 64-bit platform, so `Base * 100` wraps for bases above
 * `MAX_EXACT_BASE`, and `/ 255` truncates toward zero; both are modelled.
 */
module Stats {
  import opened GoTypes

  /** The largest base stat in the game: the scale's 100 %. */
  const MAX_BASE_STAT: int := 255

  /** The largest base for which `base * 100` still fits in an int64. */
  const MAX_EXACT_BASE: int := (TWO_TO_THE_63 - 1) / 100

  /** One decoded element of the `stats` list. */
  datatype RawStat = RawStat(baseStat: int64, statName: string)

  /** One row of the page's stat table. */
  datatype Stat = Stat(name: string, base: int64, percent: int64)

  /**
   * The percentage of one base stat: 0 for a non-positive base, otherwise
   * `base * 100 / 255` with Go's wrapping multiplication and truncating
   * division.  Where no overflow happens the result is the floor of the
   * exact ratio.
   */
  function Percent(base: int64): (p: int64)
    ensures base <= 0 ==> p == 0
    ensures 0 < base <= MAX_EXACT_BASE ==> p * 255 <= base * 100 < (p + 1) * 255
    ensures 0 <= base <= MAX_BASE_STAT ==> 0 <= p <= 100
  {
    if base > 0 then
      var product := Wrap64(base * 100);
      var p := TruncDiv(product, 255);
      assert 0 < base <= MAX_BASE_STAT ==> p * 255 <= 25500;
      p
    else 0
  }

  /** Truncation, not rounding: 100 → 39 and 255 → 100. */
  lemma PercentExamples()
    ensures Percent(0) == 0 && Percent(-5) == 0
    ensures Percent(100) == 39 && Percent(255) == 100
    ensures Percent(1) == 0 && Percent(256) == 100 && Percent(258) == 101
  {}

  /**
   * There is no clamp: up to `MAX_EXACT_BASE` the percentage passes 100
   * exactly from base 258 on (256 and 257 still truncate to 100).
   */
  lemma PercentAbove100(base: int64)
    requires 0 < base <= MAX_EXACT_BASE
    ensures Percent(base) > 100 <==> base >= 258
  {}

  /** Just past `MAX_EXACT_BASE` the int64 product wraps and the percentage is negative. */
  lemma PercentWrapsNegative()
    ensures Percent(MAX_EXACT_BASE + 1) < 0
  {}

  /** The record-to-row conversion of one loop iteration. */
  function StatOf(r: RawStat): Stat
  {
    Stat(r.statName, r.baseStat, Percent(r.baseStat))
  }

  /**
   * The loop of `pokemonStats`: one row per decoded record, in the decoded
   * order, name and base copied and the percentage computed.
   */
  method BuildStats(raw: seq<RawStat>) returns (out: seq<Stat>)
    ensures |out| == |raw|
    ensures forall i :: 0 <= i < |raw| ==>
      out[i].name == raw[i].statName && out[i].base == raw[i].baseStat && out[i].percent == Percent(raw[i].baseStat)
    ensures (forall i :: 0 <= i < |raw| ==> 0 <= raw[i].baseStat <= MAX_BASE_STAT) ==>
      forall i :: 0 <= i < |out| ==> 0 <= out[i].percent <= 100
  {
    out := [];
    var i := 0;
    while i < |raw|
      invariant 0 <= i <= |raw|
      invariant |out| == i
      invariant forall j :: 0 <= j < i ==> out[j] == StatOf(raw[j])
    {
      var s := raw[i];
      var percent: int64 := 0;
      if s.baseStat > 0 {
        percent := TruncDiv(Wrap64(s.baseStat * 100), 255);
      }
      out := out + [Stat(s.statName, s.baseStat, percent)];
      i := i + 1;
    }
  }
}
