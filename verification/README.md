# AutoTranscodeVideo, modelled in Dafny

`AutoTranscodeVideo.py` normalises a video library. It lists the video files under an
input root, oldest first. For each file it then decides between four actions:

- The video stream is already HEVC. The file is moved into the output root, unless that
  path is already taken.
- An earlier transcode at `<stem>.mkv` in the output root matches the source's duration
  to within 1%. The source is archived to the trash root.
- An earlier transcode exists but is unreadable or the wrong length. It goes to the
  recycle bin and the file is transcoded again.
- There is no earlier output. The file is transcoded.

This project models the three parts of that file that make decisions:

- `compare_float`, the duration tolerance check (module `Duration`).
- `get_file_list`, a filter by container suffix plus a stable sort by modification time
  (modules `Paths` and `Catalog`).
- `process_video_file`, the per-file reconciliation (modules `Probe` and `Transcoder`).

The reconciliation is a method of class `Transcoder.Library`. The class has three fields:

- `files`: the filesystem, a map from path to file content.
- `recycleBin`: the recycle bin filled by `send2trash`.
- `encoderRuns`: the log of encoder runs.

ffprobe and the encoder are oracles passed in as parameters. The pure function
`Transcoder.Classify` computes the disposition (`AlreadyConforming`, `PriorOutputValid`,
`PriorOutputInvalid` or `NeedsTranscode`) from the state before the call. For each
disposition, the method's contract gives the complete new filesystem, recycle bin,
encoder log and return value. The contract also states three framing facts:

- Only the source, its two possible destinations and its archive path are touched.
- The source's content is never deleted. It is moved, left in place or, when the source is its own candidate path, sent to the recycle bin.
- A failed source probe changes nothing.

Three details of the code decide edge cases:

- `get_video_file_info` takes the first audio stream with `[...][0]` (AutoTranscodeVideo.py:37). A source with no audio stream therefore raises before anything changes. A candidate output with no audio stream counts as invalid.
- The source's duration is read at line 116, inside the `try` block. A source without a numeric duration therefore does not raise. Its existing candidate output is sent to the recycle bin and it is transcoded.
- Archiving with `src.rename` (line 122) fails under Windows semantics when the archive path is taken. The same `except` block catches that failure, so the candidate output is sent to the recycle bin and the source is transcoded (`PriorOutputInvalid`).

## Model

| member | source | states |
|---|---|---|
| Paths.LastDot | AutoTranscodeVideo.py:21 | the index found is a dot and no later character is a dot; `None` only when the name has no dot (Python's `rfind`, on which pathlib's suffix rests) |
| Paths.Suffix | AutoTranscodeVideo.py:21 | a suffix is empty or a dot followed by at least one non-dot character, and is shorter than the name |
| Paths.SuffixIsTail | AutoTranscodeVideo.py:21 | the suffix is a tail of the name, and it is non-empty exactly when the last dot is neither the first nor the last character |
| Paths.EndsWithSuffix | AutoTranscodeVideo.py:21 | a name has a given four-character suffix such as `.mp4` exactly when it is longer than four characters and ends with it |
| Paths.Stem | AutoTranscodeVideo.py:111 | stem followed by suffix gives back the whole name; a non-empty name has a non-empty stem |
| Paths.WithMkvSuffix | AutoTranscodeVideo.py:111 | the candidate name `<stem>.mkv` has suffix `.mkv` and the source's stem |
| Paths.SuffixIsCaseSensitive | AutoTranscodeVideo.py:21 | `.MP4` is not `.mp4`; only the last suffix counts; a leading or trailing dot is no suffix |
| Duration.CompareFloat | AutoTranscodeVideo.py:92-100 | false when both magnitudes are zero; otherwise true exactly when `abs(a-b) <= 0.01 * max(abs(a), abs(b))` |
| Duration.BothZeroNeverMatch | AutoTranscodeVideo.py:96-98 | two zero durations never match |
| Duration.CompareFloatSymmetric | AutoTranscodeVideo.py:95-100 | the comparison is symmetric |
| Duration.CompareFloatReflexive | AutoTranscodeVideo.py:95-100 | a non-zero duration matches itself |
| Duration.OneZeroNeverMatches | AutoTranscodeVideo.py:95-100 | a zero duration never matches a non-zero one |
| Duration.ToleranceExamples | AutoTranscodeVideo.py:100 | 100 vs 100.5 and 100 vs 99 match; 100 vs 102.5 and 100 vs 98.9 do not |
| Probe.FirstOfKind | AutoTranscodeVideo.py:34 | returns the first stream of the kind (none earlier has it), or `None` exactly when no stream has it |
| Probe.GetVideoFileInfo | AutoTranscodeVideo.py:26-40 | succeeds exactly when ffprobe succeeds and there is a video stream and an audio stream; returns the format duration and streams of those kinds taken from the report |
| Probe.FirstVideoStreamChosen | AutoTranscodeVideo.py:34 | with several video streams, the first one is returned |
| Catalog.IsVideo | AutoTranscodeVideo.py:21 | an entry is a video exactly when its name is longer than four characters and ends in `.mp4`, `.mov`, `.mkv` or `.avi`, with case kept |
| Catalog.Videos | AutoTranscodeVideo.py:21 | keeps only video entries and never more than it was given |
| Catalog.VideosCount | AutoTranscodeVideo.py:21 | keeps each video entry exactly as often as it was enumerated, and nothing else |
| Catalog.VideosIsSubsequence | AutoTranscodeVideo.py:21 | the kept entries are a subsequence of the enumeration, so they stay in enumeration order |
| Catalog.VideosAtTime | AutoTranscodeVideo.py:21 | filtering and then taking one modification time gives the same sequence as taking that time and then filtering |
| Catalog.Insert | AutoTranscodeVideo.py:22 | inserting adds exactly the new entry to the multiset |
| Catalog.InsertIsStable | AutoTranscodeVideo.py:22 | the inserted entry goes before every entry with its modification time and leaves the rest in order |
| Catalog.InsertKeepsSorted | AutoTranscodeVideo.py:22 | insertion keeps the order by modification time |
| Catalog.SortByMtime | AutoTranscodeVideo.py:22 | the result is a permutation of the input, ordered by modification time, with equal times in input order (stable) |
| Catalog.GetFileList | AutoTranscodeVideo.py:11-22 | exactly the video entries with their multiplicities, in non-decreasing modification time, with equal times in enumeration order |
| Catalog.ListedAtTime | AutoTranscodeVideo.py:21-22 | the listed entries with one modification time are the video entries enumerated at that time, in enumeration order |
| Catalog.ListedIffVideo | AutoTranscodeVideo.py:21 | an entry is listed exactly when it was enumerated and its suffix is `.mp4`, `.mov`, `.mkv` or `.avi` |
| Catalog.StableOrderIsUnique | AutoTranscodeVideo.py:22 | two sequences that are sorted and agree on every same-time subsequence are equal, so GetFileList's contract determines its result |
| Catalog.UpperCaseSuffixNotListed | AutoTranscodeVideo.py:21 | `clip.MP4` is not listed |
| Transcoder.ConformingSlot | AutoTranscodeVideo.py:106 | a conforming source goes to the output root under its own name, never to its archive path |
| Transcoder.CandidateSlot | AutoTranscodeVideo.py:111 | the candidate is in the output root with suffix `.mkv` and the source's stem; it is the conforming path exactly when the source's suffix is `.mkv` |
| Transcoder.ArchiveSlot | AutoTranscodeVideo.py:122 | the archive path is in the trash root, outside the output root, under the source's name |
| Transcoder.DurationsMatch | AutoTranscodeVideo.py:116 | both durations are present and numeric, not both zero, and differ by at most 1% of the larger magnitude |
| Transcoder.Classify | AutoTranscodeVideo.py:104-123 | no disposition exactly when the source probe or its `codec_name` fails; conforming exactly when the codec is `hevc`; plain transcode only without a candidate, and a prior-output disposition only with one; a valid prior output exactly when the candidate probes, the durations match and the archive path is free |
| Transcoder.ProbeAt | AutoTranscodeVideo.py:104 | probing a path can only succeed if a file is there |
| Transcoder.MoveFile | AutoTranscodeVideo.py:108 | a rename puts the content at the target, removes the source path and changes no other path |
| Transcoder.ValidOutputMatchesDuration | AutoTranscodeVideo.py:112-123 | a prior output is accepted only if it exists, probes successfully and matches the source's duration, and the archive path is free |
| Transcoder.ZeroLengthOutputNeverValid | AutoTranscodeVideo.py:116 | a zero-length source and a zero-length output never count as a valid prior transcode |
| Transcoder.ClassifyIsLocal | AutoTranscodeVideo.py:103-123 | the disposition depends only on which of the source, candidate and archive paths hold files |
| Transcoder.RerunAfterMoveRaises | AutoTranscodeVideo.py:104 | after the source is moved or archived, a re-run's probe of it fails, so a re-run changes nothing |
| Transcoder.RerunAfterDiscardTranscodes | AutoTranscodeVideo.py:112-129 | after an invalid output is discarded, a re-run of the same source classifies as a plain transcode |
| Transcoder.Library.Rename | AutoTranscodeVideo.py:122 | succeeds exactly when the source exists and the target does not; then moves the content, otherwise changes nothing |
| Transcoder.Library.SendToTrash | AutoTranscodeVideo.py:120 | the file leaves the filesystem and is appended to the recycle bin |
| Transcoder.Library.TranscodeVideo | AutoTranscodeVideo.py:43-89 | exactly one encoder run is recorded for `(src, dst)` and its exit code is returned; files are unchanged |
| Transcoder.Library.ProcessVideoFile | AutoTranscodeVideo.py:103-130 | per disposition, the exact new files, recycle bin, encoder log and return value; only the source's four paths change; the source's content stays at its path, the output root or the trash root, except that a source which is its own candidate path may go to the recycle bin; a source probe failure raises with no change; at most one encoder run |

## Left out

- The encoder (`transcode_video`, lines 43-89) is an oracle from `(src, dst)` to an exit code. Its ffmpeg arguments, environment, process priority and the output file it writes are not modelled, so the filesystem does not change when it runs.
- ffprobe (`ffmpeg.probe`, line 28) is an oracle from path to an optional report. Every stream is assumed to carry `codec_type`. A missing `duration` and one that `float()` cannot parse are both modelled as an absent duration.
- `send2trash` is assumed to succeed on an existing file. It is only ever called on the candidate path after checking that the path exists.
- Durations and modification times are exact reals, so the float rounding of `float()`, `/` and `0.01` is not modelled.
- Paths are compared exactly. Windows' case-insensitive path lookup and `Path.resolve()` symlink resolution are not modelled. A catalog entry has one path, used both for the suffix test and as the listed path.
- The recursive glob and `stat()` are replaced by a sequence of entries with their modification times, taken once. A directory whose name ends in a video suffix would be listed by the source too.
- `main` is not modelled: its `ThreadPoolExecutor(max_workers=2)`, the fixed input root and the propagation of exceptions through `executor.map` are concurrency and I/O.
- Re-running a file is idempotent only up to the encoder. RerunAfterMoveRaises and the `Raised` case of ProcessVideoFile cover the move and archive branches. After a transcode, the state a second run sees depends on the encoder's output file, which is not modelled.
- The `print` calls are left out.
