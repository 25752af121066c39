/** The volume deriver (`getVolumeData`): one coloured volume bar per
    candle, measuring the native-asset leg when the pair has one. */
module VolumeDeriver {
  import opened Candles

  datatype Option<T> = None | Some(value: T)

  /** An asset of the ledger: a code and, except for the native asset, an
      issuing account. */
  datatype Asset = Asset(code: string, issuer: Option<string>)

  /** The traded pair: the base asset bought and the counter asset sold. */
  datatype Pair = Pair(baseBuying: Asset, counterSelling: Asset)

  /** Up: close not below open, drawn green ("rgba(76, 175, 80, 0.5)");
      Down: close below open, drawn red ("rgba(239, 83, 80, 0.5)"). */
  datatype Color = Up | Down

  datatype VolumeBar = VolumeBar(time: int, value: real, color: Color)

  /** The native asset is the one coded "XLM" that has no issuer. */
  predicate IsNativeXlm(a: Asset) {
    a.code == "XLM" && a.issuer.None?
  }

  const Scale: real := 10000000.0

  /** The integer nearest to y, halves rounded away from zero. */
  function RoundHalfAway(y: real): (n: int)
    ensures y - 0.5 <= n as real <= y + 0.5
    ensures y >= 0.0 ==> y - 0.5 < n as real
    ensures y < 0.0 ==> n as real < y + 0.5
    ensures y >= 0.0 ==> n >= 0
    ensures y <= 0.0 ==> n <= 0
  {
    if y >= 0.0 then (y + 0.5).Floor else -((-y) + 0.5).Floor
  }

  /** `parseFloat(x.toFixed(7))` on exact numbers: the nearest multiple of
      one ten-millionth, halves rounded away from zero (toFixed rounds the
      magnitude and keeps the sign). */
  function Round7(x: real): (r: real)
    ensures (r * Scale).Floor as real == r * Scale
    ensures x * Scale - 0.5 <= r * Scale <= x * Scale + 0.5
    ensures x >= 0.0 ==> x * Scale - 0.5 < r * Scale
    ensures x < 0.0 ==> r * Scale < x * Scale + 0.5
    ensures x >= 0.0 ==> r >= 0.0
  {
    RoundHalfAway(x * Scale) as real / Scale
  }

  /** A whole number is its own nearest integer. */
  lemma RoundHalfAwayWhole(n: int)
    ensures RoundHalfAway(n as real) == n
  {
    if n >= 0 {
      assert (n as real + 0.5).Floor == n;
    } else {
      assert ((-n) as real + 0.5).Floor == -n;
    }
  }

  /** Rounding a value that is already a whole number of ten-millionths
      leaves it unchanged, so Round7 is idempotent. */
  lemma Round7Idempotent(x: real)
    ensures Round7(Round7(x)) == Round7(x)
  {
    var n := RoundHalfAway(x * Scale);
    assert Round7(x) * Scale == n as real;
    RoundHalfAwayWhole(n);
  }

  /** The volume `getVolumeData` reports for one candle. */
  function VolumeOf(candle: Candle, pair: Pair): real {
    var isBaseNativeXlm := IsNativeXlm(pair.baseBuying);
    var isCounterNativeXlm := IsNativeXlm(pair.counterSelling);
    var isTradeToXlm := isBaseNativeXlm || isCounterNativeXlm;
    var volumeXlm := if isBaseNativeXlm then candle.baseVolume else candle.counterVolume;
    if isTradeToXlm then volumeXlm else candle.baseVolume
  }

  /** Leg selection: the base leg when it is native, the counter leg when
      only that one is native, the base leg when neither is. */
  lemma VolumeLegSelection(candle: Candle, pair: Pair)
    ensures IsNativeXlm(pair.baseBuying) ==> VolumeOf(candle, pair) == candle.baseVolume
    ensures !IsNativeXlm(pair.baseBuying) && IsNativeXlm(pair.counterSelling)
      ==> VolumeOf(candle, pair) == candle.counterVolume
    ensures !IsNativeXlm(pair.baseBuying) && !IsNativeXlm(pair.counterSelling)
      ==> VolumeOf(candle, pair) == candle.baseVolume
  {
  }

  /** One volume bar per candle, in the same order. */
  function GetVolumeData(trades: seq<Candle>, pair: Pair): (vols: seq<VolumeBar>)
    ensures |vols| == |trades|
    ensures forall i :: 0 <= i < |trades| ==>
      && vols[i].time == trades[i].time
      && (vols[i].color == Up <==> trades[i].open <= trades[i].close)
      && vols[i].value == Round7(
           if !IsNativeXlm(pair.baseBuying) && IsNativeXlm(pair.counterSelling)
           then trades[i].counterVolume else trades[i].baseVolume)
    ensures (forall i :: 0 <= i < |trades| ==> trades[i].baseVolume >= 0.0 && trades[i].counterVolume >= 0.0)
      ==> forall i :: 0 <= i < |vols| ==> vols[i].value >= 0.0
  {
    seq(|trades|, i requires 0 <= i < |trades| =>
      VolumeBar(
        trades[i].time,
        Round7(VolumeOf(trades[i], pair)),
        if trades[i].open <= trades[i].close then Up else Down))
  }

  /** Three sample pairs: XLM/USD reports the base volume, USD/XLM
      the counter volume, and a pair without XLM the base volume. */
  lemma VolumeExamples()
    ensures var xlm := Asset("XLM", None);
      var usd := Asset("USD", Some("GUSD"));
      var eur := Asset("EUR", Some("GEUR"));
      var bar := Candle(0, 1.0, 1.0, 1.0, 1.0, 5.0, 7.0);
      && GetVolumeData([bar], Pair(xlm, usd))[0].value == 5.0
      && GetVolumeData([bar], Pair(usd, xlm))[0].value == 7.0
      && GetVolumeData([bar], Pair(usd, eur))[0].value == 5.0
      && GetVolumeData([bar], Pair(usd, eur))[0].color == Up
  {
    var xlm := Asset("XLM", None);
    var usd := Asset("USD", Some("GUSD"));
    var eur := Asset("EUR", Some("GEUR"));
    assert IsNativeXlm(xlm) && !IsNativeXlm(usd) && !IsNativeXlm(eur);
    assert Round7(5.0) == 5.0 && Round7(7.0) == 7.0;
  }
}
