/**
 * `process_video_file`: the per-file reconciliation of one source against the
 * output folder. The filesystem is a map from path to file content; the
 * recycle bin that `send2trash` fills is kept as the list of what was sent to
 * it; every run of the encoder is recorded. ffprobe and the encoder are
 * oracles passed in by the caller.
 */
module Transcoder {
  import opened Wrappers
  import opened Paths
  import opened Probe
  import opened Duration

  /** The fixed roots of the library (`F:\output\` and `F:\trash`). */
  const OutputDir: string := "F:\\output"
  const TrashDir: string := "F:\\trash"

  /** A source whose video stream already has this codec is moved, not transcoded. */
  const TargetCodec: string := "hevc"

  /** The container suffix of every transcoded output. */
  const TargetSuffix: string := ".mkv"

  /** The content of a file, abstractly: what a rename carries along. */
  datatype Content = Content(id: nat)

  /** One call of the encoder, `transcode_video(src, dst)`. */
  datatype Invocation = Invocation(src: Path, dst: Path)

  /** The classification of a source that selects its one reconciliation action. */
  datatype Disposition = AlreadyConforming | PriorOutputValid | PriorOutputInvalid | NeedsTranscode

  /**
   * How `process_video_file` ends: an exception escapes, it returns `False`,
   * or it returns the encoder's exit code.
   */
  datatype Outcome = Raised | ReturnedFalse | ReturnedCode(code: int)

  /** Where a conforming source is moved: the output root, under its own name. */
  function ConformingSlot(src: Path): (r: Path)
    ensures r.dir == OutputDir && r.name == src.name
    ensures r != ArchiveSlot(src)
  {
    Path(OutputDir, src.name)
  }

  /** Where the transcode of a source is written: the output root, `<stem>.mkv`. */
  function CandidateSlot(src: Path): (r: Path)
    ensures r.dir == OutputDir && r != ArchiveSlot(src)
    ensures src.name != [] ==> Suffix(r.name) == TargetSuffix && Stem(r.name) == Stem(src.name)
    ensures r == ConformingSlot(src) <==> Suffix(src.name) == TargetSuffix
  {
    if src.name != [] then
      WithMkvSuffix(src.name);
      Path(OutputDir, Stem(src.name) + TargetSuffix)
    else
      Path(OutputDir, Stem(src.name) + TargetSuffix)
  }

  /** Where a source is archived once a valid output exists: the trash root, under its own name. */
  function ArchiveSlot(src: Path): (r: Path)
    ensures r.dir == TrashDir && r.dir != OutputDir && r.name == src.name
  {
    Path(TrashDir, src.name)
  }

  /** `get_video_file_info` on a path: ffprobe fails on a path that holds no file. */
  function ProbeAt(files: map<Path, Content>, probe: Path -> Option<ProbeReport>, p: Path): (r: Option<MediaInfo>)
    ensures r.Some? ==> p in files
  {
    if p in files then GetVideoFileInfo(probe(p)) else None
  }

  /** A rename: the content leaves `from` and appears at `to`. */
  function MoveFile(files: map<Path, Content>, from: Path, to: Path): (r: map<Path, Content>)
    requires from in files
    ensures to in r && r[to] == files[from]
    ensures from != to ==> from !in r
    ensures forall p :: p != from && p != to ==> (p in r <==> p in files) && (p in r ==> r[p] == files[p])
  {
    (files - {from})[to := files[from]]
  }

  /**
   * Line 116 evaluated without an exception and true: both durations are
   * present and numeric and within the tolerance.
   */
  function DurationsMatch(source: MediaInfo, candidate: MediaInfo): (r: bool)
    ensures r <==>
      && source.duration.Some? && candidate.duration.Some?
      && var a, b := source.duration.value, candidate.duration.value;
         Max(Abs(a), Abs(b)) > 0.0 && Abs(a - b) <= Tolerance * Max(Abs(a), Abs(b))
  {
    && source.duration.Some?
    && candidate.duration.Some?
    && CompareFloat(source.duration.value, candidate.duration.value)
  }

  /**
   * The disposition of `src` against the filesystem before any change, or
   * `None` when probing the source raises (no file, ffprobe failure, no video
   * or no audio stream, no `codec_name`). Every way the `try` block can fail,
   * archiving included, ends as `PriorOutputInvalid`.
   */
  function Classify(files: map<Path, Content>, probe: Path -> Option<ProbeReport>, src: Path): (d: Option<Disposition>)
    // the source probe raises
    ensures d.None? <==> ProbeAt(files, probe, src).None? || ProbeAt(files, probe, src).value.video.codecName.None?
    // the codec alone decides conformance
    ensures d == Some(AlreadyConforming) <==>
      ProbeAt(files, probe, src).Some? && ProbeAt(files, probe, src).value.video.codecName == Some(TargetCodec)
    // the existence of the candidate separates a plain transcode from a prior attempt
    ensures d == Some(NeedsTranscode) ==> CandidateSlot(src) !in files
    ensures d == Some(PriorOutputValid) || d == Some(PriorOutputInvalid) ==> CandidateSlot(src) in files
    // a prior output is accepted exactly when it probes, matches in duration and the archive path is free
    ensures d == Some(PriorOutputValid) <==>
      && d.Some? && d != Some(AlreadyConforming) && CandidateSlot(src) in files
      && ArchiveSlot(src) !in files
      && ProbeAt(files, probe, CandidateSlot(src)).Some?
      && DurationsMatch(ProbeAt(files, probe, src).value, ProbeAt(files, probe, CandidateSlot(src)).value)
  {
    match ProbeAt(files, probe, src)
    case None => None
    case Some(source) =>
      match source.video.codecName
      case None => None
      case Some(codec) =>
        if codec == TargetCodec then Some(AlreadyConforming)
        else if CandidateSlot(src) !in files then Some(NeedsTranscode)
        else
          var candidate := ProbeAt(files, probe, CandidateSlot(src));
          if candidate.Some? && DurationsMatch(source, candidate.value) && ArchiveSlot(src) !in files
          then Some(PriorOutputValid)
          else Some(PriorOutputInvalid)
  }

  /** Nothing outside `touched` appears, disappears or changes content. */
  ghost predicate UnchangedOutside(before: map<Path, Content>, after: map<Path, Content>, touched: set<Path>)
  {
    forall p :: p !in touched ==> (p in before <==> p in after) && (p in before ==> before[p] == after[p])
  }

  /** The content `c` is still at the source path, in the output root or in the trash root. */
  ghost predicate SourceKept(files: map<Path, Content>, src: Path, c: Content)
  {
    || (src in files && files[src] == c)
    || (ConformingSlot(src) in files && files[ConformingSlot(src)] == c)
    || (ArchiveSlot(src) in files && files[ArchiveSlot(src)] == c)
  }

  /** A prior output is accepted only when its duration matches the source's within the tolerance. */
  lemma ValidOutputMatchesDuration(files: map<Path, Content>, probe: Path -> Option<ProbeReport>, src: Path)
    requires Classify(files, probe, src) == Some(PriorOutputValid)
    ensures CandidateSlot(src) in files && ArchiveSlot(src) !in files
    ensures ProbeAt(files, probe, src).Some? && ProbeAt(files, probe, CandidateSlot(src)).Some?
    ensures DurationsMatch(ProbeAt(files, probe, src).value, ProbeAt(files, probe, CandidateSlot(src)).value)
  {
  }

  /** Zero-length media never validate a prior output. */
  lemma ZeroLengthOutputNeverValid(files: map<Path, Content>, probe: Path -> Option<ProbeReport>, src: Path)
    requires ProbeAt(files, probe, src).Some? && ProbeAt(files, probe, src).value.duration == Some(0.0)
    requires ProbeAt(files, probe, CandidateSlot(src)).Some?
    requires ProbeAt(files, probe, CandidateSlot(src)).value.duration == Some(0.0)
    ensures Classify(files, probe, src) != Some(PriorOutputValid)
  {
    BothZeroNeverMatch(0.0, 0.0);
  }

  /**
   * The disposition depends only on what lies at the source, the candidate
   * and the archive paths: files elsewhere in the library cannot change it.
   */
  lemma {:induction false} ClassifyIsLocal(f: map<Path, Content>, g: map<Path, Content>, probe: Path -> Option<ProbeReport>, src: Path)
    requires src in f <==> src in g
    requires CandidateSlot(src) in f <==> CandidateSlot(src) in g
    requires ArchiveSlot(src) in f <==> ArchiveSlot(src) in g
    ensures Classify(f, probe, src) == Classify(g, probe, src)
  {
    assert ProbeAt(f, probe, src) == ProbeAt(g, probe, src);
    assert ProbeAt(f, probe, CandidateSlot(src)) == ProbeAt(g, probe, CandidateSlot(src));
  }

  /**
   * Re-running after a move or an archive: the source path is empty, so
   * probing it raises and (by ProcessVideoFile) nothing changes.
   */
  lemma RerunAfterMoveRaises(files: map<Path, Content>, probe: Path -> Option<ProbeReport>, src: Path, to: Path)
    requires src in files && to != src
    ensures Classify(MoveFile(files, src, to), probe, src) == None
  {
  }

  /**
   * Re-running after a discarded output: the candidate slot is empty, so the
   * same source now needs a plain transcode.
   */
  lemma {:induction false} RerunAfterDiscardTranscodes(files: map<Path, Content>, probe: Path -> Option<ProbeReport>, src: Path)
    requires Classify(files, probe, src) == Some(PriorOutputInvalid)
    requires src != CandidateSlot(src)
    ensures Classify(files - {CandidateSlot(src)}, probe, src) == Some(NeedsTranscode)
  {
    var after := files - {CandidateSlot(src)};
    assert src in after && after[src] == files[src];
    assert ProbeAt(after, probe, src) == ProbeAt(files, probe, src);
  }

  /** The library's filesystem, recycle bin and encoder log. */
  class Library {
    /** Every file of the library, by path. */
    var files: map<Path, Content>
    /** What `send2trash` has taken, oldest first: recoverable, not deleted. */
    var recycleBin: seq<Content>
    /** Every encoder run started, oldest first. */
    var encoderRuns: seq<Invocation>

    constructor (initial: map<Path, Content>)
      ensures files == initial && recycleBin == [] && encoderRuns == []
    {
      files := initial;
      recycleBin := [];
      encoderRuns := [];
    }

    /**
     * `Path.rename` with Windows semantics: it raises (here: returns false and
     * changes nothing) when the source is missing or the target exists.
     */
    method Rename(from: Path, to: Path) returns (ok: bool)
      modifies this
      ensures ok <==> from in old(files) && to !in old(files)
      ensures files == if ok then MoveFile(old(files), from, to) else old(files)
      ensures recycleBin == old(recycleBin) && encoderRuns == old(encoderRuns)
    {
      ok := from in files && to !in files;
      if ok {
        files := MoveFile(files, from, to);
      }
    }

    /** `send2trash`: the file leaves the library for the recycle bin. */
    method SendToTrash(p: Path)
      requires p in files
      modifies this
      ensures files == old(files) - {p}
      ensures recycleBin == old(recycleBin) + [old(files)[p]]
      ensures encoderRuns == old(encoderRuns)
    {
      recycleBin := recycleBin + [files[p]];
      files := files - {p};
    }

    /** `transcode_video`: one recorded encoder run, whose exit code is returned. */
    method TranscodeVideo(src: Path, dst: Path, encoder: (Path, Path) -> int) returns (code: int)
      modifies this
      ensures code == encoder(src, dst)
      ensures encoderRuns == old(encoderRuns) + [Invocation(src, dst)]
      ensures files == old(files) && recycleBin == old(recycleBin)
    {
      encoderRuns := encoderRuns + [Invocation(src, dst)];
      code := encoder(src, dst);
    }

    /**
     * `process_video_file`: classify `src` and carry out the one action its
     * disposition selects.
     */
    method ProcessVideoFile(src: Path, probe: Path -> Option<ProbeReport>, encoder: (Path, Path) -> int)
      returns (result: Outcome)
      modifies this
      // a failed source probe raises before anything changes
      ensures result == Raised <==> Classify(old(files), probe, src).None?
      ensures result == Raised ==>
        files == old(files) && recycleBin == old(recycleBin) && encoderRuns == old(encoderRuns)
      // a conforming source is moved into the output root unless that path is taken
      ensures Classify(old(files), probe, src) == Some(AlreadyConforming) ==>
        && result == ReturnedFalse
        && recycleBin == old(recycleBin) && encoderRuns == old(encoderRuns)
        && files == if ConformingSlot(src) in old(files) then old(files)
                    else MoveFile(old(files), src, ConformingSlot(src))
      // no prior output: exactly one encoder run, nothing moved
      ensures Classify(old(files), probe, src) == Some(NeedsTranscode) ==>
        && result == ReturnedCode(encoder(src, CandidateSlot(src)))
        && files == old(files) && recycleBin == old(recycleBin)
        && encoderRuns == old(encoderRuns) + [Invocation(src, CandidateSlot(src))]
      // a valid prior output: the source is archived, nothing is encoded
      ensures Classify(old(files), probe, src) == Some(PriorOutputValid) ==>
        && result == ReturnedFalse
        && files == MoveFile(old(files), src, ArchiveSlot(src))
        && recycleBin == old(recycleBin) && encoderRuns == old(encoderRuns)
      // an invalid prior output: it goes to the recycle bin, then one encoder run
      ensures Classify(old(files), probe, src) == Some(PriorOutputInvalid) ==>
        && result == ReturnedCode(encoder(src, CandidateSlot(src)))
        && files == old(files) - {CandidateSlot(src)}
        && recycleBin == old(recycleBin) + [old(files)[CandidateSlot(src)]]
        && encoderRuns == old(encoderRuns) + [Invocation(src, CandidateSlot(src))]
      // only the source, its destinations and its archive path are touched
      ensures UnchangedOutside(old(files), files, {src, ConformingSlot(src), CandidateSlot(src), ArchiveSlot(src)})
      // the source's content is moved or left in place, never discarded ...
      ensures src in old(files) && src != CandidateSlot(src) ==> SourceKept(files, src, old(files)[src])
      // ... and in every case it is still in the library or in the recycle bin
      ensures src in old(files) ==> old(files)[src] in files.Values || old(files)[src] in recycleBin
      ensures |encoderRuns| <= |old(encoderRuns)| + 1
    {
      var source := ProbeAt(files, probe, src);
      if source.None? || source.value.video.codecName.None? {
        return Raised;
      }
      var info := source.value;
      if info.video.codecName.value == TargetCodec {
        var dst := ConformingSlot(src);
        if dst !in files {
          var moved := Rename(src, dst);
        }
      } else {
        var transcode := true;
        var dst := CandidateSlot(src);
        if dst in files {
          // the `try` block; `failed` marks an exception caught by its `except`
          var failed := false;
          var candidate := ProbeAt(files, probe, dst);
          if candidate.None? || info.duration.None? || candidate.value.duration.None? {
            failed := true;
          } else if !CompareFloat(info.duration.value, candidate.value.duration.value) {
            SendToTrash(dst);
          } else {
            var archived := Rename(src, ArchiveSlot(src));
            if archived {
              transcode := false;
            } else {
              failed := true;
            }
          }
          if failed {
            SendToTrash(dst);
          }
        }
        if transcode {
          var code := TranscodeVideo(src, dst, encoder);
          return ReturnedCode(code);
        }
      }
      return ReturnedFalse;
    }
  }
}
