/**
 * Properties of the capture loop over many windows: the cool-down spacing
 * of peak entries, the fixed length and contents of a recording episode,
 * and the agreement between the entry counter and the logs.
 */
module Properties {
  import opened Samples
  import opened Machine

  /** No fragment of any window is above the threshold. */
  predicate AllQuiet(c: Config, ws: seq<seq<Fragment>>)
  {
    forall k :: 0 <= k < |ws| ==> !Loud(c, ws[k])
  }

  lemma {:induction false} RunConcat(c: Config, s: State, a: seq<seq<Fragment>>, b: seq<seq<Fragment>>)
    requires c.frames >= 1
    ensures RunWindows(c, s, a + b) == RunWindows(c, RunWindows(c, s, a), b)
    decreases |b|
  {
    if b == [] {
      assert a + b == a;
    } else {
      var ab := a + b;
      assert ab[..|ab| - 1] == a + b[..|b| - 1];
      assert ab[|ab| - 1] == b[|b| - 1];
      RunConcat(c, s, a, b[..|b| - 1]);
    }
  }

  lemma RunOne(c: Config, s: State, w: seq<Fragment>)
    requires c.frames >= 1
    ensures RunWindows(c, s, [w]) == WindowStep(c, s, w)
  {
    assert [w][..0] == [];
  }

  /** Every boundary of a run keeps the invariant. */
  lemma {:induction false} RunInv(c: Config, s: State, ws: seq<seq<Fragment>>)
    requires ValidConfig(c) && Inv(c, s) && FullWindows(c, ws)
    ensures Inv(c, RunWindows(c, s, ws))
    decreases |ws|
  {
    if ws != [] {
      var p := ws[..|ws| - 1];
      assert forall k :: 0 <= k < |p| ==> p[k] == ws[k];
      RunInv(c, s, p);
      WindowStepInv(c, RunWindows(c, s, p), ws[|ws| - 1]);
    }
  }

  /**
   * The entry counter and the two logs grow in step: each entry adds one
   * event-log line and one CSV row.
   */
  lemma {:induction false} RunCounts(c: Config, s: State, ws: seq<seq<Fragment>>)
    requires ValidConfig(c)
    ensures var t := RunWindows(c, s, ws);
      && t.nPeakLogEntries - |t.peakLog| == s.nPeakLogEntries - |s.peakLog|
      && |t.csvLog| - |t.peakLog| == |s.csvLog| - |s.peakLog|
    decreases |ws|
  {
    if ws != [] {
      var p := ws[..|ws| - 1];
      RunCounts(c, s, p);
      WindowPeakEntry(c, RunWindows(c, s, p), ws[|ws| - 1]);
    }
  }

  /** While the cool-down runs, nothing is logged however loud the windows are. */
  lemma {:induction false} CooldownSilences(c: Config, s: State, ws: seq<seq<Fragment>>)
    requires ValidConfig(c) && |ws| <= s.peakReportTimeout
    ensures var t := RunWindows(c, s, ws);
      && t.peakLog == s.peakLog
      && t.csvLog == s.csvLog
      && t.nPeakLogEntries == s.nPeakLogEntries
      && t.peakReportTimeout == s.peakReportTimeout - |ws|
    decreases |ws|
  {
    if ws != [] {
      var p := ws[..|ws| - 1];
      CooldownSilences(c, s, p);
      WindowPeakEntry(c, RunWindows(c, s, p), ws[|ws| - 1]);
    }
  }

  /**
   * A peak entry is followed by R - 1 windows without one: the windows
   * after the entry's window write nothing, even if every fragment is loud.
   */
  lemma EntrySpacing(c: Config, s: State, w: seq<Fragment>, ws: seq<seq<Fragment>>)
    requires ValidConfig(c) && s.peakReportTimeout == 0 && Loud(c, w)
    requires |ws| < c.recordLength
    ensures var t := RunWindows(c, s, [w] + ws);
      && t.peakLog == s.peakLog + [w[FirstLoud(c, w)].rms]
      && |t.csvLog| == |s.csvLog| + 1
      && t.peakReportTimeout == c.recordLength - 1 - |ws|
  {
    RunConcat(c, s, [w], ws);
    RunOne(c, s, w);
    WindowPeakEntry(c, s, w);
    CooldownSilences(c, WindowStep(c, s, w), ws);
  }

  /** In any R consecutive windows at most one peak entry is written. */
  lemma {:induction false} OneEntryPerCooldown(c: Config, s: State, ws: seq<seq<Fragment>>)
    requires ValidConfig(c) && s.peakReportTimeout <= c.recordLength
    requires |ws| <= c.recordLength
    ensures |RunWindows(c, s, ws).peakLog| <= |s.peakLog| + 1
    decreases |ws|
  {
    if ws != [] {
      var w := ws[0];
      var rest := ws[1..];
      assert ws == [w] + rest;
      RunConcat(c, s, [w], rest);
      RunOne(c, s, w);
      var t := WindowStep(c, s, w);
      WindowPeakEntry(c, s, w);
      if s.peakReportTimeout == 0 && Loud(c, w) {
        CooldownSilences(c, t, rest);
      } else {
        OneEntryPerCooldown(c, t, rest);
      }
    }
  }

  lemma {:induction false} AllChunksLength(c: Config, ws: seq<seq<Fragment>>)
    requires FullWindows(c, ws)
    ensures |AllChunks(ws)| == |ws| * c.frames
    decreases |ws|
  {
    if ws != [] {
      var p := ws[..|ws| - 1];
      assert forall k :: 0 <= k < |p| ==> p[k] == ws[k];
      AllChunksLength(c, p);
      MulSucc(|p|, c.frames);
    }
  }

  /**
   * An episode started by a loud first window from idle keeps recording for
   * R windows whatever they contain; its buffer is exactly the chunks of the
   * windows recorded so far, and after the R-th window it ends, saving that
   * buffer once if audio saving is on.
   */
  lemma {:induction false} EpisodeProgress(c: Config, s: State, ws: seq<seq<Fragment>>)
    requires ValidConfig(c) && Inv(c, s) && !s.saveStreamRequest
    requires FullWindows(c, ws) && 1 <= |ws| <= c.recordLength && Loud(c, ws[0])
    ensures var t := RunWindows(c, s, ws);
      && t.frames == AllChunks(ws)
      && (if |ws| < c.recordLength then
            && t.saveStreamRequest
            && t.frameCounter == c.recordLength - |ws|
            && t.wavFiles == s.wavFiles
          else
            && !t.saveStreamRequest
            && t.frameCounter == c.recordLength
            && t.wavFiles == s.wavFiles + (if c.saveAudio then [AllChunks(ws)] else []))
    decreases |ws|
  {
    var p := ws[..|ws| - 1];
    var w := ws[|ws| - 1];
    OnFragmentsEffect(c, RunWindows(c, s, p), w);
    if |ws| == 1 {
      assert p == [];
      assert AllChunks(ws) == [] + Chunks(w);
    } else {
      assert forall k :: 0 <= k < |p| ==> p[k] == ws[k];
      EpisodeProgress(c, s, p);
    }
  }

  /** Every episode lasts exactly R windows and its saved audio is R windows of N chunks. */
  lemma EpisodeLastsRecordLength(c: Config, s: State, ws: seq<seq<Fragment>>)
    requires ValidConfig(c) && Inv(c, s) && !s.saveStreamRequest
    requires FullWindows(c, ws) && |ws| == c.recordLength && Loud(c, ws[0])
    ensures forall k :: 1 <= k < |ws| ==> RunWindows(c, s, ws[..k]).saveStreamRequest
    ensures var t := RunWindows(c, s, ws);
      && !t.saveStreamRequest
      && t.frameCounter == c.recordLength
      && t.frames == AllChunks(ws)
      && |t.frames| == c.recordLength * c.frames
      && t.wavFiles == s.wavFiles + (if c.saveAudio then [t.frames] else [])
  {
    forall k | 1 <= k < |ws|
      ensures RunWindows(c, s, ws[..k]).saveStreamRequest
    {
      var q := ws[..k];
      assert q[0] == ws[0];
      assert forall j :: 0 <= j < |q| ==> q[j] == ws[j];
      EpisodeProgress(c, s, q);
    }
    EpisodeProgress(c, s, ws);
    AllChunksLength(c, ws);
  }

  /** Quiet windows leave an idle monitor whose cool-down has expired exactly as it was. */
  lemma {:induction false} QuietIdleRun(c: Config, s: State, ws: seq<seq<Fragment>>)
    requires ValidConfig(c) && Inv(c, s) && !s.saveStreamRequest && s.peakReportTimeout == 0
    requires AllQuiet(c, ws)
    ensures RunWindows(c, s, ws) == s
    decreases |ws|
  {
    if ws != [] {
      var p := ws[..|ws| - 1];
      assert forall k :: 0 <= k < |p| ==> p[k] == ws[k];
      QuietIdleRun(c, s, p);
      QuietIdleWindow(c, s, ws[|ws| - 1]);
    }
  }

  /**
   * A loud window from an idle monitor whose cool-down has expired, followed
   * by R - 1 windows: one peak entry, one CSV row, one count and, iff audio
   * saving is on, one saved file of those R windows, ending idle.
   */
  lemma LoudEpisode(c: Config, s: State, episode: seq<seq<Fragment>>)
    requires ValidConfig(c) && Inv(c, s) && !s.saveStreamRequest && s.peakReportTimeout == 0
    requires FullWindows(c, episode) && |episode| == c.recordLength && Loud(c, episode[0])
    ensures var t := RunWindows(c, s, episode);
      && t.peakLog == s.peakLog + [episode[0][FirstLoud(c, episode[0])].rms]
      && |t.csvLog| == |s.csvLog| + 1
      && t.nPeakLogEntries == s.nPeakLogEntries + 1
      && t.wavFiles == s.wavFiles + (if c.saveAudio then [AllChunks(episode)] else [])
      && |AllChunks(episode)| == c.recordLength * c.frames
      && !t.saveStreamRequest
      && t.peakReportTimeout == 0
      && Inv(c, t)
  {
    var w := episode[0];
    var rest := episode[1..];
    assert episode == [w] + rest;
    EpisodeLastsRecordLength(c, s, episode);
    EntrySpacing(c, s, w, rest);
    RunCounts(c, s, episode);
    RunInv(c, s, episode);
  }

  /** Splits the windows around a loud window into before, the episode and the last window. */
  lemma SplitLast(c: Config, before: seq<seq<Fragment>>, w: seq<Fragment>, after: seq<seq<Fragment>>)
    requires |w| == c.frames && FullWindows(c, after) && |after| >= 1
    ensures var episode := [w] + after[..|after| - 1];
      && before + [w] + after == before + episode + [after[|after| - 1]]
      && FullWindows(c, episode)
      && episode[0] == w
  {
    var episode := [w] + after[..|after| - 1];
    assert after == after[..|after| - 1] + [after[|after| - 1]];
    forall k | 0 <= k < |episode| ensures |episode[k]| == c.frames {
      if k > 0 { assert episode[k] == after[k - 1]; }
    }
  }

  /**
   * An isolated loud window, preceded by quiet windows and followed by R
   * quiet windows, yields exactly one peak entry, one CSV row and, if audio
   * saving is on, one audio file of R windows of audio starting with the
   * loud one; the monitor is then idle with the cool-down expired.
   */
  lemma IsolatedLoudWindow(c: Config, s: State, before: seq<seq<Fragment>>, w: seq<Fragment>, after: seq<seq<Fragment>>)
    requires ValidConfig(c) && Inv(c, s) && !s.saveStreamRequest && s.peakReportTimeout == 0
    requires FullWindows(c, before) && AllQuiet(c, before)
    requires |w| == c.frames && Loud(c, w)
    requires FullWindows(c, after) && AllQuiet(c, after) && |after| == c.recordLength
    ensures var t := RunWindows(c, s, before + [w] + after);
      var episode := [w] + after[..c.recordLength - 1];
      && t.peakLog == s.peakLog + [w[FirstLoud(c, w)].rms]
      && |t.csvLog| == |s.csvLog| + 1
      && t.nPeakLogEntries == s.nPeakLogEntries + 1
      && t.wavFiles == s.wavFiles + (if c.saveAudio then [AllChunks(episode)] else [])
      && |AllChunks(episode)| == c.recordLength * c.frames
      && !t.saveStreamRequest
      && t.peakReportTimeout == 0
  {
    var r := c.recordLength;
    var episode := [w] + after[..r - 1];
    var last := after[r - 1];
    SplitLast(c, before, w, after);
    RunConcat(c, s, before + episode, [last]);
    RunConcat(c, s, before, episode);
    QuietIdleRun(c, s, before);
    LoudEpisode(c, s, episode);

    // The final quiet window leaves the idle monitor unchanged.
    var t1 := RunWindows(c, s, episode);
    assert !Loud(c, last);
    RunOne(c, t1, last);
    QuietIdleWindow(c, t1, last);
  }
}
