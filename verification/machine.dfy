/**
 * The monitor's per-fragment and per-window behaviour as functions on
 * values. The class in `Vahti` is proved to follow these functions step by
 * step; the lemmas here and in `Properties` say what they guarantee.
 *
 * A fragment is its raw bytes together with its RMS. The RMS is computed in
 * floating point from the bytes; here it is a given non-negative real that
 * is only ever compared and summed.
 */
module Machine {
  import opened Samples

  type Rms = r: real | 0.0 <= r

  datatype Fragment = Fragment(data: Block, rms: Rms)

  /**
   * Settings fixed for a run: fragments per window (the rounded-down number
   * of fragments per second), the record length R in windows (both the
   * cool-down and the episode length), the noise threshold, and whether
   * finished episodes are saved as audio files.
   */
  datatype Config = Config(frames: nat, recordLength: nat, threshold: real, saveAudio: bool)

  predicate ValidConfig(c: Config)
  {
    c.frames >= 1 && c.recordLength >= 1
  }

  /** Running statistics of the current window: maximum, minimum and mean RMS. */
  datatype Stats = Stats(maxVol: real, minVol: real, meanVol: real)

  /** The starting value of the window minimum, above any RMS a block can have. */
  const MinVolSentinel: real := 1000.0

  const InitialStats: Stats := Stats(0.0, MinVolSentinel, 0.0)

  /**
   * Everything that outlives one fragment. `saveStreamRequest`,
   * `frameCounter` and `frames` are the episode state; `peakLog` holds the
   * RMS written on each line of the event log, `csvLog` the statistics on
   * each CSV row after the header, `wavFiles` the fragments of each audio
   * file saved.
   */
  datatype State = State(
    peakReportTimeout: nat,
    nPeakLogEntries: nat,
    saveStreamRequest: bool,
    frameCounter: int,
    frames: seq<Block>,
    peakLog: seq<Rms>,
    csvLog: seq<Stats>,
    wavFiles: seq<seq<Block>>)

  /** The state a freshly constructed monitor is in. */
  function Initial(c: Config): (t: State)
    ensures ValidConfig(c) ==> Inv(c, t)
    ensures !t.saveStreamRequest && t.peakLog == [] && t.csvLog == [] && t.wavFiles == []
  {
    State(0, 0, false, c.recordLength, [], [], [], [])
  }

  /**
   * The state at the top of the capture loop: the log files are truncated
   * and the episode state is reset; the cool-down and the entry counter
   * carry over.
   */
  function Start(c: Config, s: State): (t: State)
    ensures t.peakReportTimeout == s.peakReportTimeout && t.nPeakLogEntries == s.nPeakLogEntries
    ensures !t.saveStreamRequest && t.frameCounter == c.recordLength
    ensures t.frames == [] && t.peakLog == [] && t.csvLog == [] && t.wavFiles == s.wavFiles
  {
    s.(saveStreamRequest := false, frameCounter := c.recordLength, frames := [], peakLog := [], csvLog := [])
  }

  predicate IsLoud(c: Config, f: Fragment)
  {
    f.rms > c.threshold
  }

  /** Some fragment of the window is above the noise threshold. */
  predicate Loud(c: Config, fs: seq<Fragment>)
  {
    exists i :: 0 <= i < |fs| && IsLoud(c, fs[i])
  }

  /** The index of the first loud fragment, or `|fs|` if there is none. */
  function FirstLoud(c: Config, fs: seq<Fragment>): (k: nat)
    ensures k <= |fs|
    ensures k < |fs| <==> Loud(c, fs)
    ensures k < |fs| ==> IsLoud(c, fs[k])
    ensures forall j :: 0 <= j < k ==> !IsLoud(c, fs[j])
    decreases |fs|
  {
    if fs == [] then 0
    else if IsLoud(c, fs[0]) then 0
    else 1 + FirstLoud(c, fs[1..])
  }

  /**
   * Folds one fragment's RMS into the window statistics: the maximum and
   * minimum become the larger and smaller of the old value and `rms`, and
   * the mean grows by `rms` divided by the window size.
   */
  function Fold(c: Config, st: Stats, rms: Rms): (r: Stats)
    requires c.frames >= 1
    ensures r.maxVol >= rms && r.maxVol >= st.maxVol && (r.maxVol == rms || r.maxVol == st.maxVol)
    ensures r.minVol <= rms && r.minVol <= st.minVol && (r.minVol == rms || r.minVol == st.minVol)
    ensures (r.meanVol - st.meanVol) * c.frames as real == rms
  {
    Stats(if rms > st.maxVol then rms else st.maxVol,
          if rms < st.minVol then rms else st.minVol,
          st.meanVol + rms / c.frames as real)
  }

  /**
   * The statistics after folding in the fragments `fs` of a window: the
   * maximum is at least every RMS seen, the minimum at most every RMS seen.
   */
  function WindowStats(c: Config, fs: seq<Fragment>): (st: Stats)
    requires c.frames >= 1
    ensures 0.0 <= st.maxVol && st.minVol <= MinVolSentinel
    ensures forall i :: 0 <= i < |fs| ==> st.minVol <= fs[i].rms <= st.maxVol
    decreases |fs|
  {
    if fs == [] then InitialStats
    else Fold(c, WindowStats(c, fs[..|fs| - 1]), fs[|fs| - 1].rms)
  }

  /**
   * The reaction to one fragment, given the window statistics including it:
   * a loud fragment starts an episode if none is running, and writes a peak
   * entry (its own RMS) and a CSV row (the statistics so far) when the
   * cool-down has expired, restarting the cool-down.
   */
  function OnFragment(c: Config, s: State, st: Stats, rms: Rms): (t: State)
    ensures t.frameCounter == s.frameCounter && t.frames == s.frames && t.wavFiles == s.wavFiles
    ensures t.saveStreamRequest <==> s.saveStreamRequest || rms > c.threshold
    ensures t.nPeakLogEntries - |t.peakLog| == s.nPeakLogEntries - |s.peakLog|
    ensures |t.csvLog| - |t.peakLog| == |s.csvLog| - |s.peakLog|
  {
    if rms > c.threshold then
      if s.peakReportTimeout == 0 then
        s.(saveStreamRequest := true,
           peakLog := s.peakLog + [rms],
           nPeakLogEntries := s.nPeakLogEntries + 1,
           peakReportTimeout := c.recordLength,
           csvLog := s.csvLog + [st])
      else
        s.(saveStreamRequest := true)
    else
      s
  }

  /**
   * The reactions to the fragments `fs` of one window, in capture order.
   * They leave the episode counter, buffer and saved files alone, raise
   * the episode request iff some fragment is loud or it was already
   * raised, and add log lines and CSV rows in pairs.
   */
  function OnFragments(c: Config, s: State, fs: seq<Fragment>): (t: State)
    requires c.frames >= 1
    ensures t.frameCounter == s.frameCounter && t.frames == s.frames && t.wavFiles == s.wavFiles
    ensures t.saveStreamRequest <==> s.saveStreamRequest || Loud(c, fs)
    ensures t.nPeakLogEntries - |t.peakLog| == s.nPeakLogEntries - |s.peakLog|
    ensures |t.csvLog| - |t.peakLog| == |s.csvLog| - |s.peakLog|
    decreases |fs|
  {
    if fs == [] then s
    else
      LoudSnoc(c, fs);
      OnFragment(c, OnFragments(c, s, fs[..|fs| - 1]), WindowStats(c, fs), fs[|fs| - 1].rms)
  }

  /** The raw bytes of the fragments, in capture order. */
  function Chunks(fs: seq<Fragment>): (r: seq<Block>)
    ensures |r| == |fs|
    ensures forall i :: 0 <= i < |fs| ==> r[i] == fs[i].data
  {
    seq(|fs|, i requires 0 <= i < |fs| => fs[i].data)
  }

  /**
   * The window boundary: the cool-down counts down (not below 0); while an
   * episode runs, its buffer is restarted on the episode's first window,
   * this window's chunks are appended and the counter counts down; when the
   * counter reaches 0 the episode ends, optionally saving the buffer.
   */
  function CloseWindow(c: Config, s: State, chunks: seq<Block>): (t: State)
    ensures t.peakLog == s.peakLog && t.csvLog == s.csvLog && t.nPeakLogEntries == s.nPeakLogEntries
    ensures t.peakReportTimeout == (if s.peakReportTimeout > 0 then s.peakReportTimeout - 1 else 0)
    ensures t.wavFiles == s.wavFiles || (c.saveAudio && t.wavFiles == s.wavFiles + [t.frames])
  {
    var timeout := if s.peakReportTimeout > 0 then s.peakReportTimeout - 1 else s.peakReportTimeout;
    var s1 :=
      if s.saveStreamRequest then
        s.(frames := (if s.frameCounter == c.recordLength then [] else s.frames) + chunks,
           frameCounter := s.frameCounter - 1)
      else s;
    var s2 := s1.(peakReportTimeout := timeout);
    if s2.frameCounter == 0 then
      s2.(saveStreamRequest := false,
          frameCounter := c.recordLength,
          wavFiles := if c.saveAudio then s2.wavFiles + [s2.frames] else s2.wavFiles)
    else s2
  }

  /** One pass of the capture loop over the window `w`. */
  function WindowStep(c: Config, s: State, w: seq<Fragment>): State
    requires c.frames >= 1
  {
    CloseWindow(c, OnFragments(c, s, w), Chunks(w))
  }

  /** Every window holds exactly the configured number of fragments. */
  predicate FullWindows(c: Config, ws: seq<seq<Fragment>>)
  {
    forall k :: 0 <= k < |ws| ==> |ws[k]| == c.frames
  }

  /** Consecutive passes of the capture loop over the windows `ws`. */
  function RunWindows(c: Config, s: State, ws: seq<seq<Fragment>>): State
    requires c.frames >= 1
    decreases |ws|
  {
    if ws == [] then s
    else WindowStep(c, RunWindows(c, s, ws[..|ws| - 1]), ws[|ws| - 1])
  }

  /** The chunks of all the windows `ws`, concatenated in capture order. */
  function AllChunks(ws: seq<seq<Fragment>>): seq<Block>
    decreases |ws|
  {
    if ws == [] then []
    else AllChunks(ws[..|ws| - 1]) + Chunks(ws[|ws| - 1])
  }

  /**
   * What holds at every window boundary: the cool-down is below R, an
   * idle monitor has its counter at R, and a running episode has between 1
   * and R - 1 windows left and has buffered one window of chunks for each
   * window it has already recorded.
   */
  predicate Inv(c: Config, s: State)
  {
    && s.peakReportTimeout < c.recordLength
    && (if s.saveStreamRequest then
          && 1 <= s.frameCounter < c.recordLength
          && |s.frames| == (c.recordLength - s.frameCounter) * c.frames
        else
          s.frameCounter == c.recordLength)
  }

  // ---------------------------------------------------------------------
  // The window statistics

  function SumRms(fs: seq<Fragment>): (r: real)
    ensures r >= 0.0
    decreases |fs|
  {
    if fs == [] then 0.0 else SumRms(fs[..|fs| - 1]) + fs[|fs| - 1].rms
  }

  /** The mean accumulator holds the sum of the RMS values seen so far divided by the window size. */
  lemma {:induction false} MeanIsScaledSum(c: Config, fs: seq<Fragment>)
    requires c.frames >= 1
    ensures WindowStats(c, fs).meanVol == SumRms(fs) / c.frames as real
    decreases |fs|
  {
    if fs != [] {
      var p := fs[..|fs| - 1];
      MeanIsScaledSum(c, p);
      AddDiv(SumRms(p), fs[|fs| - 1].rms, c.frames as real);
    }
  }

  lemma AddDiv(a: real, b: real, n: real)
    requires n > 0.0
    ensures a / n + b / n == (a + b) / n
  {
    assert a / n * n == a;
    assert b / n * n == b;
    assert (a / n + b / n) * n == a + b;
  }

  /**
   * The maximum is one of the RMS values seen; so is the minimum, provided
   * no RMS exceeds the sentinel.
   */
  lemma {:induction false} StatsAttained(c: Config, fs: seq<Fragment>)
    requires c.frames >= 1 && |fs| > 0
    ensures exists i :: 0 <= i < |fs| && WindowStats(c, fs).maxVol == fs[i].rms
    ensures (forall i :: 0 <= i < |fs| ==> fs[i].rms <= MinVolSentinel) ==>
              exists i :: 0 <= i < |fs| && WindowStats(c, fs).minVol == fs[i].rms
    decreases |fs|
  {
    var p := fs[..|fs| - 1];
    var last := |fs| - 1;
    if |p| == 0 {
      assert WindowStats(c, fs).maxVol == fs[0].rms;
      assert fs[0].rms <= MinVolSentinel ==> WindowStats(c, fs).minVol == fs[0].rms;
    } else {
      StatsAttained(c, p);
      var st := WindowStats(c, p);
      var i :| 0 <= i < |p| && st.maxVol == p[i].rms;
      assert p[i] == fs[i];
      if (forall i :: 0 <= i < |fs| ==> fs[i].rms <= MinVolSentinel) {
        assert forall i :: 0 <= i < |p| ==> p[i].rms <= MinVolSentinel by {
          forall i | 0 <= i < |p| ensures p[i].rms <= MinVolSentinel {
            assert p[i] == fs[i];
          }
        }
        var j :| 0 <= j < |p| && st.minVol == p[j].rms;
        assert p[j] == fs[j];
        assert WindowStats(c, fs).minVol == fs[j].rms || WindowStats(c, fs).minVol == fs[last].rms;
      }
      assert WindowStats(c, fs).maxVol == fs[i].rms || WindowStats(c, fs).maxVol == fs[last].rms;
    }
  }

  lemma {:induction false} SumRmsBounds(fs: seq<Fragment>, lo: real, hi: real)
    requires forall i :: 0 <= i < |fs| ==> lo <= fs[i].rms <= hi
    ensures |fs| as real * lo <= SumRms(fs) <= |fs| as real * hi
    decreases |fs|
  {
    if fs != [] {
      var p := fs[..|fs| - 1];
      assert forall i :: 0 <= i < |p| ==> p[i] == fs[i];
      SumRmsBounds(p, lo, hi);
      AddBounds(|p| as real, lo, hi, SumRms(p), fs[|fs| - 1].rms);
    }
  }

  lemma AddBounds(k: real, lo: real, hi: real, sum: real, x: real)
    requires k * lo <= sum <= k * hi && lo <= x <= hi
    ensures (k + 1.0) * lo <= sum + x <= (k + 1.0) * hi
  {
  }

  /** Over a complete window the mean lies between the minimum and the maximum. */
  lemma CompleteWindowMeanBetween(c: Config, w: seq<Fragment>)
    requires c.frames >= 1 && |w| == c.frames
    ensures var st := WindowStats(c, w); st.minVol <= st.meanVol <= st.maxVol
  {
    var st := WindowStats(c, w);
    MeanIsScaledSum(c, w);
    MeanOfBoundedValues(w, st.meanVol, st.minVol, st.maxVol);
  }

  /** The average of values that all lie in [lo, hi] lies in [lo, hi]. */
  lemma MeanOfBoundedValues(fs: seq<Fragment>, mean: real, lo: real, hi: real)
    requires |fs| > 0 && mean == SumRms(fs) / |fs| as real
    requires forall i :: 0 <= i < |fs| ==> lo <= fs[i].rms <= hi
    ensures lo <= mean <= hi
  {
    SumRmsBounds(fs, lo, hi);
    DivideBounds(|fs| as real, lo, SumRms(fs), hi);
  }

  lemma DivideBounds(n: real, lo: real, x: real, hi: real)
    requires n > 0.0 && n * lo <= x <= n * hi
    ensures lo <= x / n <= hi
  {
    assert x / n * n == x;
  }

  /**
   * A CSV row written before the window's last fragment is not a window
   * summary: its mean is the partial sum divided by the full window size,
   * strictly below its maximum once anything nonzero has been heard.
   */
  lemma PartialRowMeanBelowMax(c: Config, fs: seq<Fragment>)
    requires c.frames >= 1 && |fs| < c.frames && SumRms(fs) > 0.0
    ensures WindowStats(c, fs).meanVol < WindowStats(c, fs).maxVol
  {
    var st := WindowStats(c, fs);
    MeanIsScaledSum(c, fs);
    ShortSumBelowMax(fs, st.meanVol, st.maxVol, c.frames as real);
  }

  /**
   * A CSV row written for the window's first fragment, when the window holds
   * two or more fragments, has a mean below its own minimum: the maximum
   * and minimum are that fragment's RMS, the mean only its N-th part.
   */
  lemma RowMeanBelowMin(c: Config, x: Fragment)
    requires c.frames >= 2 && 0.0 < x.rms <= MinVolSentinel
    ensures WindowStats(c, [x]).minVol == WindowStats(c, [x]).maxVol == x.rms
    ensures WindowStats(c, [x]).meanVol < WindowStats(c, [x]).minVol
  {
    var xs := [x];
    assert xs[..|xs| - 1] == [] && xs[|xs| - 1] == x;
    assert WindowStats(c, []) == InitialStats;
    var st := WindowStats(c, xs);
    assert st == Fold(c, InitialStats, x.rms);
    MeanBelowMax(st.meanVol, x.rms, c.frames as real, 1.0, x.rms);
  }

  lemma ShortSumBelowMax(fs: seq<Fragment>, mean: real, mx: real, n: real)
    requires |fs| as real < n && mean == SumRms(fs) / n && SumRms(fs) > 0.0
    requires forall i :: 0 <= i < |fs| ==> fs[i].rms <= mx
    ensures mean < mx
  {
    SumRmsBounds(fs, 0.0, mx);
    MeanBelowMax(mean, SumRms(fs), n, |fs| as real, mx);
  }

  lemma MeanBelowMax(mean: real, total: real, n: real, k: real, mx: real)
    requires 0.0 <= k < n && mean == total / n && 0.0 < total <= k * mx
    ensures mean < mx
  {
    assert mx > 0.0 by {
      assert mx <= 0.0 ==> k * mx <= 0.0;
    }
    assert k * mx < n * mx;
    assert mean * n == total;
  }

  // ---------------------------------------------------------------------
  // One window

  /**
   * The combined effect of a window's fragments in closed form: the episode
   * request is raised iff some fragment is loud, and a single peak entry and
   * CSV row are written, for the first loud fragment, iff the cool-down had
   * expired. Nothing else changes.
   */
  function Reaction(c: Config, s: State, fs: seq<Fragment>): State
    requires c.frames >= 1
  {
    if s.peakReportTimeout == 0 && Loud(c, fs) then
      var k := FirstLoud(c, fs);
      s.(saveStreamRequest := true,
         peakLog := s.peakLog + [fs[k].rms],
         nPeakLogEntries := s.nPeakLogEntries + 1,
         peakReportTimeout := c.recordLength,
         csvLog := s.csvLog + [WindowStats(c, fs[..k + 1])])
    else
      s.(saveStreamRequest := s.saveStreamRequest || Loud(c, fs))
  }

  /** Folding the fragments one at a time has exactly the closed-form effect. */
  lemma {:induction false} OnFragmentsEffect(c: Config, s: State, fs: seq<Fragment>)
    requires ValidConfig(c)
    ensures OnFragments(c, s, fs) == Reaction(c, s, fs)
    decreases |fs|
  {
    if fs != [] {
      OnFragmentsEffect(c, s, fs[..|fs| - 1]);
      ReactionSnoc(c, s, fs);
    }
  }

  lemma ReactionSnoc(c: Config, s: State, fs: seq<Fragment>)
    requires ValidConfig(c) && fs != []
    ensures var p := fs[..|fs| - 1];
      Reaction(c, s, fs) == OnFragment(c, Reaction(c, s, p), WindowStats(c, fs), fs[|fs| - 1].rms)
  {
    var p := fs[..|fs| - 1];
    var x := fs[|fs| - 1];
    LoudSnoc(c, fs);
    FirstLoudSnoc(c, fs);
    if Loud(c, p) {
      var k := FirstLoud(c, p);
      assert fs[..k + 1] == p[..k + 1];
    } else if IsLoud(c, x) {
      assert fs[..|p| + 1] == fs;
    }
  }

  lemma LoudSnoc(c: Config, fs: seq<Fragment>)
    requires fs != []
    ensures Loud(c, fs) <==> Loud(c, fs[..|fs| - 1]) || IsLoud(c, fs[|fs| - 1])
  {
    var p := fs[..|fs| - 1];
    if Loud(c, p) {
      var i :| 0 <= i < |p| && IsLoud(c, p[i]);
      assert fs[i] == p[i];
    }
    if Loud(c, fs) {
      var i :| 0 <= i < |fs| && IsLoud(c, fs[i]);
      if i < |p| { assert p[i] == fs[i]; }
    }
  }

  lemma FirstLoudSnoc(c: Config, fs: seq<Fragment>)
    requires fs != []
    ensures var p := fs[..|fs| - 1];
      && (Loud(c, p) ==> FirstLoud(c, fs) == FirstLoud(c, p))
      && (!Loud(c, p) && IsLoud(c, fs[|fs| - 1]) ==> FirstLoud(c, fs) == |p|)
  {
    var p := fs[..|fs| - 1];
    var k := FirstLoud(c, p);
    var k' := FirstLoud(c, fs);
    assert forall j :: 0 <= j < |p| ==> p[j] == fs[j];
    assert forall j :: 0 <= j < k ==> !IsLoud(c, fs[j]);
    if Loud(c, p) {
      assert IsLoud(c, fs[k]);
    }
  }

  /**
   * At most one peak entry per window: a window writes exactly one entry
   * and one CSV row, carrying the first loud fragment's RMS and the
   * statistics up to it, iff the cool-down had expired and some fragment is
   * loud; the cool-down then reads R - 1 at the boundary. Otherwise nothing
   * is written and the cool-down counts down.
   */
  lemma WindowPeakEntry(c: Config, s: State, w: seq<Fragment>)
    requires ValidConfig(c)
    ensures var t := WindowStep(c, s, w);
      if s.peakReportTimeout == 0 && Loud(c, w) then
        var k := FirstLoud(c, w);
        && t.peakLog == s.peakLog + [w[k].rms]
        && t.csvLog == s.csvLog + [WindowStats(c, w[..k + 1])]
        && t.nPeakLogEntries == s.nPeakLogEntries + 1
        && t.peakReportTimeout == c.recordLength - 1
      else
        && t.peakLog == s.peakLog
        && t.csvLog == s.csvLog
        && t.nPeakLogEntries == s.nPeakLogEntries
        && t.peakReportTimeout == if s.peakReportTimeout > 0 then s.peakReportTimeout - 1 else 0
  {
    OnFragmentsEffect(c, s, w);
  }

  /**
   * When the first fragment of a window of two or more triggers the entry,
   * the CSV row written has a mean below its minimum.
   */
  lemma FirstFragmentRow(c: Config, s: State, w: seq<Fragment>)
    requires ValidConfig(c) && c.frames >= 2 && |w| == c.frames && s.peakReportTimeout == 0
    requires IsLoud(c, w[0]) && 0.0 < w[0].rms <= MinVolSentinel
    ensures var t := WindowStep(c, s, w);
      && |t.csvLog| == |s.csvLog| + 1
      && t.csvLog[..|s.csvLog|] == s.csvLog
      && t.csvLog[|s.csvLog|].meanVol < t.csvLog[|s.csvLog|].minVol
  {
    assert Loud(c, w);
    assert FirstLoud(c, w) == 0;
    WindowPeakEntry(c, s, w);
    assert w[..1] == [w[0]];
    RowMeanBelowMin(c, w[0]);
  }

  /** Every window boundary keeps the invariant. */
  lemma WindowStepInv(c: Config, s: State, w: seq<Fragment>)
    requires ValidConfig(c) && Inv(c, s) && |w| == c.frames
    ensures Inv(c, WindowStep(c, s, w))
  {
    OnFragmentsEffect(c, s, w);
    CloseWindowInv(c, OnFragments(c, s, w), Chunks(w));
  }

  /**
   * What holds between fragments: the cool-down is at most R, and an episode
   * raised during this window has its counter still at R.
   */
  predicate MidInv(c: Config, s: State)
  {
    && s.peakReportTimeout <= c.recordLength
    && (if s.saveStreamRequest then
          || s.frameCounter == c.recordLength
          || (1 <= s.frameCounter < c.recordLength && |s.frames| == (c.recordLength - s.frameCounter) * c.frames)
        else
          s.frameCounter == c.recordLength)
  }

  lemma CloseWindowInv(c: Config, m: State, chunks: seq<Block>)
    requires ValidConfig(c) && MidInv(c, m) && |chunks| == c.frames
    ensures Inv(c, CloseWindow(c, m, chunks))
  {
  }

  lemma MulSucc(a: int, n: int)
    ensures a * n + n == (a + 1) * n
  {
  }

  /**
   * An idle monitor that hears only quiet fragments stays idle: only the
   * cool-down counts down; nothing is logged, buffered or saved.
   */
  lemma QuietIdleWindow(c: Config, s: State, w: seq<Fragment>)
    requires ValidConfig(c) && Inv(c, s) && !s.saveStreamRequest && !Loud(c, w)
    ensures WindowStep(c, s, w) ==
      s.(peakReportTimeout := if s.peakReportTimeout > 0 then s.peakReportTimeout - 1 else 0)
  {
    OnFragmentsEffect(c, s, w);
  }
}
