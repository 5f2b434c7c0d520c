/**
 * The monitor object. Its cool-down and entry counter are fields, as in the
 * source; the episode state that the capture loop keeps in local variables
 * (the request flag, the countdown and the episode buffer) is kept in fields
 * too, so that one pass of the loop can be a method. The three output files
 * are sequences the methods append to.
 */
module Vahti {
  import opened Samples
  import opened Machine
  import opened Properties

  class Haukkuvahti {
    const config: Config

    var peakReportTimeout: nat
    var nPeakLogEntries: nat

    // locals of the capture loop
    var saveStreamRequest: bool
    var frameCounter: int
    var frames: seq<Block>

    // the event log, the CSV log (rows after the header) and the saved audio files
    var peakLog: seq<Rms>
    var csvLog: seq<Stats>
    var wavFiles: seq<seq<Block>>

    /** The monitor's state as a value. */
    function Snapshot(): State
      reads this
    {
      State(peakReportTimeout, nPeakLogEntries, saveStreamRequest, frameCounter, frames, peakLog, csvLog, wavFiles)
    }

    ghost predicate Valid()
      reads this
    {
      ValidConfig(config) && Inv(config, Snapshot())
    }

    /**
     * A monitor reading `frameCount` fragments per window, with record length
     * `recordLength` windows. The cool-down and the counter start at 0.
     */
    constructor (frameCount: nat, recordLength: nat, threshold: real, saveAudio: bool)
      requires frameCount >= 1 && recordLength >= 1
      ensures config == Config(frameCount, recordLength, threshold, saveAudio)
      ensures Valid() && Snapshot() == Initial(config)
    {
      config := Config(frameCount, recordLength, threshold, saveAudio);
      peakReportTimeout := 0;
      nPeakLogEntries := 0;
      saveStreamRequest := false;
      frameCounter := recordLength;
      frames := [];
      peakLog := [];
      csvLog := [];
      wavFiles := [];
    }

    method GetNumberOfPeakLogEntries() returns (n: nat)
      ensures n == nPeakLogEntries
    {
      n := nPeakLogEntries;
    }

    /**
     * One pass of the capture loop: reads the window's fragments from
     * `stream` in order, folding each into the window statistics and
     * reacting to it, then closes the window.
     */
    method Window(stream: seq<Fragment>)
      requires Valid() && |stream| == config.frames
      modifies this
      ensures Valid()
      ensures Snapshot() == WindowStep(config, old(Snapshot()), stream)
    {
      ghost var s0 := Snapshot();
      var st := InitialStats;
      var chunks: seq<Block> := [];
      for i := 0 to config.frames
        invariant Snapshot() == OnFragments(config, s0, stream[..i])
        invariant st == WindowStats(config, stream[..i])
        invariant chunks == Chunks(stream[..i])
      {
        ghost var seen := stream[..i + 1];
        assert seen[..i] == stream[..i] && seen[i] == stream[i];
        chunks := chunks + [stream[i].data];
        st := ReadFragment(stream[i].rms, st);
      }
      assert stream[..config.frames] == stream;
      OnFragmentsEffect(config, s0, stream);
      EndWindow(chunks);
    }

    /**
     * One fragment of a window, whose RMS is `rms`: folds it into the
     * window statistics `st` (maximum, minimum and running mean) and reacts
     * to it. A loud fragment starts an episode if none is running, and when
     * the cool-down has expired it writes a peak entry and a CSV row and
     * restarts the cool-down.
     */
    method ReadFragment(rms: Rms, st: Stats) returns (next: Stats)
      requires config.frames >= 1
      modifies this
      ensures next == Fold(config, st, rms)
      ensures Snapshot() == OnFragment(config, old(Snapshot()), next, rms)
    {
      var maxVol, minVol, meanVol := st.maxVol, st.minVol, st.meanVol;
      if rms > maxVol {
        maxVol := rms;
      }
      if rms < minVol {
        minVol := rms;
      }
      meanVol := meanVol + rms / config.frames as real;
      next := Stats(maxVol, minVol, meanVol);

      if rms > config.threshold {
        if !saveStreamRequest {
          saveStreamRequest := true;
        }
        if peakReportTimeout == 0 {
          peakLog := peakLog + [rms];
          nPeakLogEntries := nPeakLogEntries + 1;
          peakReportTimeout := config.recordLength;
          csvLog := csvLog + [next];
        }
      }
    }

    /**
     * The window boundary: counts the cool-down down, records the window's
     * `chunks` while an episode runs, and ends the episode when its counter
     * reaches 0, saving the buffer if audio saving is on.
     */
    method EndWindow(chunks: seq<Block>)
      requires ValidConfig(config) && MidInv(config, Snapshot()) && |chunks| == config.frames
      modifies this
      ensures Valid()
      ensures Snapshot() == CloseWindow(config, old(Snapshot()), chunks)
    {
      ghost var m := Snapshot();
      if peakReportTimeout > 0 {
        peakReportTimeout := peakReportTimeout - 1;
      }

      if saveStreamRequest {
        if frameCounter == config.recordLength {
          frames := [];
        }
        frames := frames + chunks;
        frameCounter := frameCounter - 1;
      }

      if frameCounter == 0 {
        saveStreamRequest := false;
        frameCounter := config.recordLength;
        if config.saveAudio {
          wavFiles := wavFiles + [frames];
        }
      }
      CloseWindowInv(config, m, chunks);
    }

    /**
     * The capture loop, run until stopped, over the windows read before the
     * stop: it truncates both logs and resets the episode state, then
     * processes one window per pass. The entry counter afterwards exceeds
     * its old value by the number of event-log lines, and there is one CSV
     * row per line.
     */
    method Run(windows: seq<seq<Fragment>>)
      requires Valid() && FullWindows(config, windows)
      modifies this
      ensures Valid()
      ensures Snapshot() == RunWindows(config, Start(config, old(Snapshot())), windows)
      ensures nPeakLogEntries == old(nPeakLogEntries) + |peakLog|
      ensures |csvLog| == |peakLog|
    {
      peakLog := [];
      csvLog := [];
      frames := [];
      saveStreamRequest := false;
      frameCounter := config.recordLength;
      ghost var start := Snapshot();
      for k := 0 to |windows|
        invariant Valid()
        invariant Snapshot() == RunWindows(config, start, windows[..k])
      {
        assert windows[..k + 1][..k] == windows[..k];
        Window(windows[k]);
      }
      assert windows[..|windows|] == windows;
      RunCounts(config, start, windows);
    }
  }
}
