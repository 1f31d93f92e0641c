/**
 * The pure helpers of the timer screen: minute/second conversion, the `MM:SS`
 * formatter, the static text shown in edit mode, and the companion icon chosen
 * from the work duration.
 */
module Clock {
  import opened Decimal

  /** Seconds in `minutes` minutes; reading the minutes back loses nothing. */
  function MinutesToSeconds(minutes: int): (seconds: int)
    ensures seconds % 60 == 0 && seconds / 60 == minutes
  {
    minutes * 60
  }

  /**
   * `formatTime`: whole minutes and leftover seconds, each written in decimal
   * and left-padded with zeros to two characters, joined by a colon.
   */
  function FormatTime(seconds: nat): (r: string)
    ensures |r| >= 5 && r[|r| - 3] == ':'
    ensures AllDigits(r[..|r| - 3]) && AllDigits(r[|r| - 2..])
    ensures seconds < 6000 <==> |r| == 5
  {
    MinutesBelowHundred(seconds);
    JoinShape(seconds / 60, seconds % 60);
    Join(seconds / 60, seconds % 60)
  }

  /** The text of `minutes` and `secs` before any division takes place. */
  function Join(minutes: nat, secs: nat): string {
    PadStart2(ToDecimal(minutes)) + ":" + PadStart2(ToDecimal(secs))
  }

  lemma JoinShape(minutes: nat, secs: nat)
    requires secs < 60
    ensures var r := Join(minutes, secs);
      |r| >= 5 && r[|r| - 3] == ':'
      && r[..|r| - 3] == PadStart2(ToDecimal(minutes)) && r[|r| - 2..] == PadStart2(ToDecimal(secs))
      && AllDigits(r[..|r| - 3]) && AllDigits(r[|r| - 2..])
      && (minutes < 100 <==> |r| == 5)
  {
    var mm := PadStart2(ToDecimal(minutes));
    var ss := PadStart2(ToDecimal(secs));
    assert |ss| == 2 && AllDigits(mm) && AllDigits(ss);
    var r := mm + ":" + ss;
    assert r == Join(minutes, secs);
    assert r[..|r| - 3] == mm;
    assert r[|r| - 2..] == ss;
  }

  lemma MinutesBelowHundred(seconds: nat)
    ensures seconds / 60 < 100 <==> seconds < 6000
    ensures seconds % 60 < 60
  {
  }

  /** The two fields of `FormatTime(s)` read back as `s / 60` and `s % 60`. */
  lemma FormatTimeFields(seconds: nat)
    ensures var r := FormatTime(seconds);
      ParseDecimal(r[..|r| - 3]) == seconds / 60 && ParseDecimal(r[|r| - 2..]) == seconds % 60
  {
    MinutesBelowHundred(seconds);
    JoinFields(seconds / 60, seconds % 60);
  }

  lemma JoinFields(minutes: nat, secs: nat)
    requires secs < 60
    ensures var r := Join(minutes, secs);
      |r| >= 5 && AllDigits(r[..|r| - 3]) && AllDigits(r[|r| - 2..])
      && ParseDecimal(r[..|r| - 3]) == minutes && ParseDecimal(r[|r| - 2..]) == secs
  {
    JoinShape(minutes, secs);
    PaddedValue(minutes);
    PaddedValue(secs);
  }

  /** The padded decimal text of `n` reads back as `n`. */
  lemma PaddedValue(n: nat)
    ensures AllDigits(PadStart2(ToDecimal(n))) && ParseDecimal(PadStart2(ToDecimal(n))) == n
  {
    PadStart2Value(ToDecimal(n));
    ParseToDecimal(n);
  }

  /** Reading `MM` and `SS` back gives `60 * MM + SS == seconds`, for every input. */
  lemma FormatTimeRoundTrip(seconds: nat)
    ensures var r := FormatTime(seconds);
      60 * ParseDecimal(r[..|r| - 3]) + ParseDecimal(r[|r| - 2..]) == seconds
  {
    FormatTimeFields(seconds);
  }

  /** Below 100 minutes the text is exactly `MM:SS`, with `SS` below 60. */
  lemma FormatTimeShort(seconds: nat)
    requires seconds < 6000
    ensures var r := FormatTime(seconds);
      |r| == 5 && r[2] == ':' && AllDigits(r[..2]) && AllDigits(r[3..])
      && ParseDecimal(r[..2]) == seconds / 60 && ParseDecimal(r[3..]) == seconds % 60
      && ParseDecimal(r[3..]) < 60
  {
    FormatTimeFields(seconds);
  }

  /** The static text shown in edit mode: the duration in minutes, padded, then `:00`. */
  function EditText(minutes: nat): (r: string)
    ensures |r| >= 5 && r[|r| - 3..] == ":00"
  {
    PadStart2(ToDecimal(minutes)) + ":00"
  }

  /** The edit-mode text is what the countdown shows once it is loaded with that duration. */
  lemma EditTextIsLoadedTime(minutes: nat)
    ensures EditText(minutes) == FormatTime(MinutesToSeconds(minutes))
  {
    var s := MinutesToSeconds(minutes);
    assert s / 60 == minutes && s % 60 == 0;
    assert PadStart2(ToDecimal(0)) == "00";
  }

  /** The companion faces, indexed by work-duration band. */
  const Icons: seq<string> := ["\U{1FAE0}", "\U{1F611}", "\U{1F913}", "\U{1F971}"]

  /** Upper bounds (inclusive, in minutes) of the first three bands. */
  const IconThresholds: seq<int> := [25, 45, 70]

  /** The band of a work duration: `r <= k` exactly when the duration is at most the k-th threshold. */
  function IconIndex(workDuration: int): (r: nat)
    ensures r < |Icons|
    ensures forall k :: 0 <= k < |IconThresholds| ==> (r <= k <==> workDuration <= IconThresholds[k])
  {
    if workDuration <= 25 then 0
    else if workDuration <= 45 then 1
    else if workDuration <= 70 then 2
    else 3
  }

  function IconFor(workDuration: int): string {
    Icons[IconIndex(workDuration)]
  }

  /** A longer work duration never selects an earlier face. */
  lemma IconMonotone(w1: int, w2: int)
    requires w1 <= w2
    ensures IconIndex(w1) <= IconIndex(w2)
  {
  }
}
