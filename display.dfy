/** The progress column: a record's completion ratio and how a row draws it. */
module Display {
  import opened Wrappers
  import opened DownloadStates
  import opened Records

  /**
   * `percent`: 1 for a DONE record, 0 while the total size is unknown (zero),
   * otherwise the fraction of the total that has been written.
   */
  function Percent(v: ItemView): (r: real)
    ensures v.state == DONE ==> r == 1.0
    ensures v.state != DONE && v.totalSize == 0 ==> r == 0.0
    ensures v.state != DONE && v.totalSize != 0 ==> r * (v.totalSize as real) == v.written as real
    ensures 0 <= v.written <= v.totalSize ==> 0.0 <= r <= 1.0
  {
    if v.state == DONE then 1.0
    else if v.totalSize == 0 then 0.0
    else v.written as real / v.totalSize as real
  }

  /**
   * `getCellProgress` for the record under a row (`None` when the row is
   * outside the view). -1 asks the table for an indeterminate bar.
   */
  function CellProgress(f: Option<ItemView>): (r: real)
    ensures f.None? ==> r == -1.0
    ensures r == -1.0 || r == 1.0 || (f.Some? && r == Percent(f.value))
    ensures f.Some? && f.value.state in {FINISHING, DONE, CANCELED} ==> r == 1.0
  {
    if f.None? then -1.0
    else
      var v := f.value;
      if v.state == QUEUED then Percent(v)
      else if v.state == RUNNING || v.state == PAUSED then (if Percent(v) != 0.0 then Percent(v) else -1.0)
      else if v.state == FINISHING || v.state == DONE || v.state == CANCELED then 1.0
      else -1.0
  }

  /** QUEUED shows the ratio itself, RUNNING and PAUSED show it unless it is zero. */
  lemma ProgressFollowsPercent(v: ItemView)
    ensures v.state == QUEUED ==> CellProgress(Some(v)) == Percent(v)
    ensures (v.state == RUNNING || v.state == PAUSED) && Percent(v) != 0.0 ==> CellProgress(Some(v)) == Percent(v)
    ensures (v.state == RUNNING || v.state == PAUSED) && v.totalSize != 0 && v.written != 0
            ==> CellProgress(Some(v)) == v.written as real / v.totalSize as real
  {
  }

  /** Finishing, finished and canceled records draw a full bar whatever their sizes. */
  lemma ProgressFull(v: ItemView)
    requires v.state == FINISHING || v.state == DONE || v.state == CANCELED
    ensures CellProgress(Some(v)) == 1.0
  {
  }

  /**
   * With sizes that make sense (nothing negative, nothing written past the
   * total), a row shows either the indeterminate bar or a fraction in [0, 1].
   */
  lemma ProgressInRange(f: Option<ItemView>)
    requires f.Some? ==> 0 <= f.value.written <= f.value.totalSize
    ensures var p := CellProgress(f); p == -1.0 || 0.0 <= p <= 1.0
  {
    if f.Some? {
      assert 0.0 <= Percent(f.value) <= 1.0;
    }
  }

  /**
   * For non-negative sizes, the bar is indeterminate exactly when the row is
   * missing, the state is none of the six drawn states, or a RUNNING or
   * PAUSED record has nothing to show yet.
   */
  lemma ProgressIndeterminate(f: Option<ItemView>)
    requires f.Some? ==> f.value.written >= 0 && f.value.totalSize >= 0
    ensures CellProgress(f) == -1.0 <==>
            || f.None?
            || f.value.state !in {QUEUED, RUNNING, PAUSED, FINISHING, DONE, CANCELED}
            || ((f.value.state == RUNNING || f.value.state == PAUSED) && Percent(f.value) == 0.0)
  {
    if f.Some? {
      var v := f.value;
      if v.state != DONE && v.totalSize != 0 {
        assert Percent(v) * (v.totalSize as real) == v.written as real;
        assert Percent(v) >= 0.0 by {
          if Percent(v) < 0.0 {
            assert Percent(v) * (v.totalSize as real) < 0.0;
          }
        }
      }
    }
  }

  /** A QUEUED record with half its bytes written shows a half-full bar; a fresh RUNNING one shows none. */
  lemma ProgressExamples(v: ItemView)
    requires v.totalSize == 200 && v.written == 100
    ensures CellProgress(Some(v.(state := QUEUED))) == 0.5
    ensures CellProgress(Some(v.(state := RUNNING, written := 0))) == -1.0
    ensures CellProgress(Some(v.(state := MISSING))) == -1.0
  {
  }
}
