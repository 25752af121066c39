/** The chart's time frames, in seconds, and the number of fraction digits
    shown for prices and volumes. The quarter hour is the finest frame: every
    other frame is a whole number of quarter hours. */
module Frames {

  const FourthHour: int := 900
  const Hour: int := 3600
  const FourHours: int := 14400
  const Day: int := 86400
  const Week: int := 604800

  /** Fraction digits of the smallest asset unit (one ten-millionth). */
  const ZerosNumber: nat := 7

  /** A frame the aggregator can bucket into: a positive multiple of the
      finest frame. */
  predicate ValidTimeFrame(timeFrame: int) {
    timeFrame > 0 && timeFrame % FourthHour == 0
  }

  /** Number of finest-frame records folded into one bar. */
  function ChunkSize(timeFrame: int): (k: nat)
    requires ValidTimeFrame(timeFrame)
    ensures k >= 1
    ensures k * FourthHour == timeFrame
  {
    timeFrame / FourthHour
  }

  /** The five frames offered by the chart are all valid, and bucket
      1, 4, 16, 96 and 672 quarter hours respectively. */
  lemma EnumeratedFramesAreValid()
    ensures ValidTimeFrame(FourthHour) && ChunkSize(FourthHour) == 1
    ensures ValidTimeFrame(Hour) && ChunkSize(Hour) == 4
    ensures ValidTimeFrame(FourHours) && ChunkSize(FourHours) == 16
    ensures ValidTimeFrame(Day) && ChunkSize(Day) == 96
    ensures ValidTimeFrame(Week) && ChunkSize(Week) == 672
  {
  }
}
