# Haukkuvahti in Dafny

Haukkuvahti ("bark watch") is a noise monitor. It reads fragments of audio
from a microphone, in windows of about one second each. For every fragment
it computes the RMS loudness. When a fragment is louder than a threshold:

- if no recording episode is running, it starts one;
- if the cool-down has expired, it writes a line to a peak log and a row of
  window statistics (maximum, minimum and mean RMS) to a CSV log, and
  restarts the cool-down.

A cool-down of R windows (the record length) separates peak-log lines.
An episode buffers R windows of audio and may then save it as a WAV file.

This project models the monitor's core and proves properties of the model:

- the per-window event and recording state machine of the capture loop;
- the monitor's counters;
- the integer part of the loudness computation.

The model has four modules:

- `Samples`: the integer part of `get_rms`.
  - A block of bytes is unpacked into signed 16-bit little-endian samples, and their squares are summed.
  - The two error paths are modelled: an odd byte count makes unpacking fail, and an empty block makes the mean divide by zero.
  - The normalisation, the division and the square root are floating point. `MeanSquare` is their exact real-valued counterpart.
- `Machine`: the capture loop as functions on values.
  - `OnFragment` is the reaction to one fragment, and `WindowStats` holds the window statistics.
  - `CloseWindow` is the window boundary, `WindowStep` is one pass of the loop, and `RunWindows` is many passes.
  - `Inv` is the invariant that holds at every window boundary.
  - The lemmas cover the statistics, the closed-form effect `Reaction` of one window, the peak entry written per window, and preservation of `Inv`.
- `Properties`: lemmas over many windows.
  - Peak entries are spaced by the cool-down, with at most one per R windows.
  - An episode lasts exactly R windows, and its buffer holds exactly those windows' audio.
  - The entry counter always matches the logs.
  - An isolated loud window produces one entry, one CSV row and, if audio saving is on, one saved recording.
- `Vahti`: the class `Haukkuvahti`.
  - Its fields are the cool-down and the entry counter. The capture loop's episode state (request flag, countdown, buffer) is lifted into fields so that one window can be a method.
  - The three output files are sequences that the methods append to.
  - Each method is proved to move the object's state exactly as the corresponding `Machine` function does. `Window`, `EndWindow` and `Run` are also proved to re-establish `Inv` at the window boundary.

A fragment is modelled as its raw bytes together with its RMS, a
non-negative real. The state machine only compares and sums the RMS.
Inside one window:

- the maximum starts at 0 and the minimum at 1000;
- the mean accumulates `rms / N`, where N is the rounded-down number of fragments per window.

Some behaviour of the code differs from what a reader of its description
might expect. The model follows the code:

- A peak-log line records the RMS of the fragment that triggered it, not the window maximum.
- The CSV row written with it carries the statistics only up to and including that fragment. Its "mean" is the partial sum divided by the full window size. So min <= mean <= max holds only for a row triggered by the window's last fragment (`Machine.CompleteWindowMeanBetween`). Any earlier row has its mean strictly below its maximum once a nonzero RMS was heard, which is always the case when the threshold is not negative (`Machine.PartialRowMeanBelowMax`), and its mean can fall below its own minimum. For example, when the first fragment of a window of two or more triggers the row, the mean is below the minimum (`Machine.RowMeanBelowMin`, `Machine.FirstFragmentRow`).
- Loud fragments during an episode neither restart nor extend it. Every episode lasts exactly R windows.
- The episode buffer is not cleared when an episode ends. It is cleared only when the next episode records its first window.
- A block whose samples all have magnitude 32767 (a full-scale square wave) has an RMS of 32767/32768, just below 1.0 (`Samples.ConstantAmplitudeMeanSquare`). 0.707 is the RMS of a full-scale sine, not of a constant-amplitude block.

## Model

| member | source | states |
|---|---|---|
| Samples.DecodeSample | haukkuvahti.py:45-47 | the decoded sample is congruent to the unsigned little-endian value modulo 65536, lies in the 16-bit range, and is negative exactly when the high byte has its top bit set |
| Samples.EncodeSample | haukkuvahti.py:45-47 | decoding the produced byte pair gives back the sample |
| Samples.SampleBytesRoundTrip | haukkuvahti.py:45-47 | encoding a decoded byte pair gives back the same bytes, so decoding loses nothing |
| Samples.DecodeAll | haukkuvahti.py:45-47 | an even-length block unpacks to half as many samples, the i-th taken from bytes 2i and 2i+1 |
| Samples.EncodeAll | haukkuvahti.py:45-47 | packing n samples gives 2n bytes |
| Samples.DecodeEncode | haukkuvahti.py:45-47 | unpacking packed samples gives back the samples |
| Samples.EncodeDecode | haukkuvahti.py:45-47 | packing the unpacked samples of an even-length block gives back the block |
| Samples.SumSquares | haukkuvahti.py:49-52 | the sum of squares is zero exactly for an all-zero block, and is at most the sample count times 32768 squared |
| Samples.ConstantAmplitude | haukkuvahti.py:49-52 | samples of magnitude 32767 sum to count times 32767 squared |
| Samples.GetRms | haukkuvahti.py:42-54 | an odd byte count fails with a struct error and only then; an empty block fails with a division by zero and only then; otherwise the count is half the byte count and the loop's sum is the sum of squares of the decoded samples |
| Samples.ConstantAmplitudeMeanSquare | haukkuvahti.py:49-54 | a non-empty block of samples of magnitude 32767 has normalised mean square exactly (32767/32768) squared |
| Samples.MeanSquare | haukkuvahti.py:49-54 | definition (the exact sum of squares divided by the count times 32768 squared); no contract of its own: `MeanSquareInUnitRange`, `RmsAtMostFullScale` and `ConstantAmplitudeMeanSquare` state its properties |
| Samples.MeanSquareInUnitRange | haukkuvahti.py:49-54 | the normalised mean square of any non-empty block lies between 0 and 1 |
| Samples.RmsAtMostFullScale | haukkuvahti.py:54 | an RMS whose square is the block's mean square is at most 1, so it is below the minimum's starting value of 1000 |
| Machine.Initial | haukkuvahti.py:31-32 | a new monitor is idle with empty logs and no saved files, and satisfies the boundary invariant whenever N and R are at least 1 |
| Machine.Start | haukkuvahti.py:59-64 | starting the loop truncates both logs and resets the episode (not requested, counter at R, empty buffer) while the cool-down and the entry counter carry over |
| Machine.Fold | haukkuvahti.py:78-82 | the new maximum is the larger of the old maximum and the RMS, the new minimum the smaller of the old minimum and the RMS, and the mean grows by the RMS divided by N |
| Machine.OnFragment | haukkuvahti.py:84-97 | one fragment leaves the episode counter, buffer and saved files alone, raises the episode request iff it is loud or the request was already raised, and adds log lines and CSV rows only in pairs, each with one count |
| Machine.OnFragments | haukkuvahti.py:76-97 | the same facts over all fragments of a window so far: the episode counter, buffer and saved files are left alone, the request is raised iff some fragment is loud or it was already raised, and lines, rows and counts grow in step |
| Machine.CloseWindow | haukkuvahti.py:99-126 | the window boundary writes no log line, CSV row or count; the cool-down counts down and stops at 0; the saved files are unchanged, or grow by exactly the episode buffer when audio saving is on |
| Machine.WindowStep | haukkuvahti.py:67-126 | definition (the fragments' reactions, then the boundary); no contract of its own: `WindowPeakEntry`, `WindowStepInv` and `QuietIdleWindow` state its properties |
| Machine.RunWindows | haukkuvahti.py:66-126 | definition (window steps in order); no contract of its own: the lemmas of `Properties` state its properties |
| Machine.Inv | haukkuvahti.py:99-115 | definition of the boundary invariant (cool-down below R; idle means the counter is at R; recording means the counter is in 1..R-1 and the buffer holds N chunks per window already recorded); no contract of its own: `WindowStepInv` and `RunInv` prove it is kept |
| Machine.FirstLoud | haukkuvahti.py:84 | the index of the first fragment above the threshold, which exists iff some fragment is loud; every earlier fragment is quiet |
| Machine.WindowStats | haukkuvahti.py:67-82 | after each fragment the maximum is at least, and the minimum at most, every RMS seen so far; the maximum is non-negative and the minimum at most 1000 |
| Machine.Chunks | haukkuvahti.py:71-75 | the window's chunks are its fragments' bytes, one per fragment, in capture order |
| Machine.MeanIsScaledSum | haukkuvahti.py:82 | the mean accumulator equals the sum of the RMS values seen divided by the window size |
| Machine.StatsAttained | haukkuvahti.py:78-81 | the maximum is one of the RMS values seen, and so is the minimum when none exceeds 1000 |
| Machine.CompleteWindowMeanBetween | haukkuvahti.py:67-82 | over a complete window the mean lies between the minimum and the maximum |
| Machine.PartialRowMeanBelowMax | haukkuvahti.py:82-97 | a CSV row written before the window's last fragment has a mean strictly below its maximum once anything nonzero was heard |
| Machine.RowMeanBelowMin | haukkuvahti.py:78-82 | for a single fragment with positive RMS up to 1000 in a window of two or more, maximum and minimum are its RMS and the mean is strictly below the minimum |
| Machine.FirstFragmentRow | haukkuvahti.py:78-97 | when the first fragment of a window of two or more is loud, with positive RMS up to 1000, and the cool-down has expired, the window appends exactly one CSV row, and its mean is below its minimum |
| Machine.OnFragmentsEffect | haukkuvahti.py:84-97 | a window's fragments, folded one by one, raise the episode request iff some fragment is loud, and write one peak entry and one CSV row, for the first loud fragment, iff the cool-down had expired, restarting the cool-down at R and adding one to the entry counter; nothing else changes |
| Machine.WindowPeakEntry | haukkuvahti.py:84-100 | a window writes exactly one peak entry (the first loud fragment's RMS), one CSV row (the statistics up to it) and increments the counter iff the cool-down was 0 and some fragment was loud, leaving the cool-down at R-1; otherwise nothing is written and the cool-down counts down to no lower than 0 |
| Machine.WindowStepInv | haukkuvahti.py:99-115 | every window boundary keeps the invariant: cool-down below R; idle means the counter is at R; recording means the counter is in 1..R-1 and the buffer holds one window of chunks per window already recorded |
| Machine.MidInv | haukkuvahti.py:84-97 | definition of the invariant that holds between fragments (cool-down at most R; an episode raised in this window still has its counter at R, otherwise the boundary invariant's episode facts); no contract of its own: `CloseWindowInv` proves the boundary restores `Inv` from it |
| Machine.CloseWindowInv | haukkuvahti.py:99-115 | the boundary code restores the boundary invariant from the weaker invariant that holds between fragments |
| Machine.QuietIdleWindow | haukkuvahti.py:84-115 | an idle monitor hearing only quiet fragments changes nothing but the cool-down countdown |
| Properties.RunInv | haukkuvahti.py:99-115 | the boundary invariant holds after any number of full windows |
| Properties.RunCounts | haukkuvahti.py:91-97 | the entry counter and both logs grow in step: counter minus log lines and CSV rows minus log lines never change |
| Properties.CooldownSilences | haukkuvahti.py:90-100 | while the cool-down runs, no window logs anything, however loud, and the cool-down drops by one per window |
| Properties.EntrySpacing | haukkuvahti.py:90-100 | after a window with a peak entry, the next R-1 windows add no entry even if every fragment is loud |
| Properties.OneEntryPerCooldown | haukkuvahti.py:90-100 | any R consecutive windows add at most one peak entry |
| Properties.AllChunksLength | haukkuvahti.py:73-75 | k full windows hold k times N chunks |
| Properties.EpisodeProgress | haukkuvahti.py:85-115 | an episode started from idle by a loud window keeps recording whatever follows; after j of its windows the buffer is exactly their chunks in order and the counter is R-j, and after R windows it is idle again with the buffer saved once iff audio saving is on |
| Properties.EpisodeLastsRecordLength | haukkuvahti.py:85-126 | every episode records for exactly R windows, ends with the counter reset to R, and its buffer (saved iff audio saving is on) is exactly the R windows' chunks, R times N of them |
| Properties.QuietIdleRun | haukkuvahti.py:84-115 | quiet windows leave an idle monitor whose cool-down has expired exactly as it was |
| Properties.LoudEpisode | haukkuvahti.py:84-126 | a loud window reaching an idle monitor whose cool-down has expired, followed by R-1 further windows, adds one peak entry with the first loud fragment's RMS, one CSV row, one count and, iff audio saving is on, one saved file of the R windows' chunks, ending idle with the cool-down expired and the invariant kept |
| Properties.IsolatedLoudWindow | haukkuvahti.py:66-126 | a loud window between quiet windows, followed by R quiet windows, yields one peak entry with the first loud fragment's RMS, one CSV row, one added count and, iff audio saving is on, one saved file of the R windows starting with the loud one, leaving the monitor idle with the cool-down expired |
| Vahti.Haukkuvahti.constructor | haukkuvahti.py:26-36 | a new monitor has the cool-down and the entry counter at 0, no episode and empty logs, and satisfies the invariant |
| Vahti.Haukkuvahti.GetNumberOfPeakLogEntries | haukkuvahti.py:38-40 | returns the entry counter |
| Vahti.Haukkuvahti.ReadFragment | haukkuvahti.py:76-97 | one fragment folds its RMS into maximum, minimum and mean and moves the state exactly as the per-fragment reaction does |
| Vahti.Haukkuvahti.EndWindow | haukkuvahti.py:99-126 | the window boundary moves the state exactly as the boundary function does and re-establishes the invariant |
| Vahti.Haukkuvahti.Window | haukkuvahti.py:66-126 | one pass of the capture loop over N fragments moves the state exactly as one window step does and keeps the invariant |
| Vahti.Haukkuvahti.Run | haukkuvahti.py:56-126 | the capture loop over the windows read before the stop starts from reset logs and episode state, follows the run of window steps, and ends with the entry counter grown by exactly the number of peak-log lines and with one CSV row per line |

## Left out

- Audio capture (`stream.read`, pyaudio) is left out: the windows of fragments are an input sequence.
- The RMS of a fragment is an input. It is not recomputed from the fragment's bytes, because the normalisation, division and square root are floating point. Only their integer part, and its exact real-valued counterpart, are modelled.
- The floating-point rounding of `mean_vol` is not modelled: the mean is accumulated as an exact real.
- The value of the noise threshold comes from a global constant. Here it is a configuration parameter.
- Threading is not modelled: the lock, the `running` flag, `stop`, and the unbounded `while running` loop. The loop is modelled over a finite sequence of windows.
- The ring buffer created in the constructor is never used by the program and is not modelled.
- The `frame_size` field is not modelled; it is used only by `stream.read`.
- Timestamps, number formatting and the CSV header line are not modelled. A log line is its RMS, and a CSV row is its statistics.
- WAV encoding (channels, sample width, rate, file name) is not modelled. A saved file is the sequence of chunks it would contain.
- Console output is not modelled: the "noise detected" notice, the countdown and the "saved" and "continuing" messages.
- Plotting (`visualize_peak_log`, `bytespdate2num`), configuration file handling and keyboard polling are not modelled.
- The window size N and the record length R are required to be at least 1. N is the constant 44100 / 1024 rounded down, which is 43. R is read from the configuration file with no check. With R = 0, the source behaves as follows, and the model does not cover it:
  - the cool-down is set to 0, so every loud fragment writes a log line;
  - the counter starts at 0, so every idle window saves an empty audio file;
  - after the first loud fragment the counter goes to -1, so the buffer grows without bound and is never saved.
  A negative R cannot be expressed in the model, because R is a natural number.
- Failures of the log and audio files are not modelled. In the source, opening or writing the event log, the CSV log or a WAV file can raise an error that nothing catches, and monitoring then stops. In the model, appending to `peakLog`, `csvLog` or `wavFiles` cannot fail.
- Unpacking with the `h` format uses the machine's native byte order. It is modelled as little-endian, the order on the platforms the program targets.
- Samples.GetRms: the success value holds the sample count and the exact sum of squares, not the floating-point RMS.
