/**
 * What the transcoder reads from ffprobe (`get_video_file_info`): the container
 * duration and the first video and first audio stream. The ffprobe run itself is
 * an oracle; a run that fails is `None`.
 */
module Probe {
  import opened Wrappers

  /** One stream of a probe report: its `codec_type` and, when reported, its `codec_name`. */
  datatype Stream = Stream(codecType: string, codecName: Option<string>)

  /**
   * The parts of an ffprobe report the transcoder reads: the format's
   * `duration` (`None` when absent or not a number) and the streams in order.
   */
  datatype ProbeReport = ProbeReport(duration: Option<real>, streams: seq<Stream>)

  /** The triple `get_video_file_info` returns: format duration, video stream, audio stream. */
  datatype MediaInfo = MediaInfo(duration: Option<real>, video: Stream, audio: Stream)

  /** The index of the first stream of the given kind, as `[s for s in streams if …][0]` picks it. */
  function FirstOfKind(streams: seq<Stream>, kind: string): (r: Option<nat>)
    ensures r.Some? ==> r.value < |streams| && streams[r.value].codecType == kind
    ensures r.Some? ==> forall j :: 0 <= j < r.value ==> streams[j].codecType != kind
    ensures r.None? ==> forall j :: 0 <= j < |streams| ==> streams[j].codecType != kind
  {
    if streams == [] then None
    else if streams[0].codecType == kind then Some(0)
    else match FirstOfKind(streams[1..], kind)
      case Some(i) => Some(i + 1)
      case None => None
  }

  /** True when some stream of the report has the given kind. */
  predicate HasKind(streams: seq<Stream>, kind: string)
  {
    exists j :: 0 <= j < |streams| && streams[j].codecType == kind
  }

  /**
   * `get_video_file_info`: fails when ffprobe fails, when there is no video
   * stream or when there is no audio stream (the `[0]` of an empty list).
   */
  function GetVideoFileInfo(report: Option<ProbeReport>): (r: Option<MediaInfo>)
    ensures r.Some? <==> report.Some? && HasKind(report.value.streams, "video") && HasKind(report.value.streams, "audio")
    ensures r.Some? ==> r.value.duration == report.value.duration
    ensures r.Some? ==> r.value.video.codecType == "video" && r.value.video in report.value.streams
    ensures r.Some? ==> r.value.audio.codecType == "audio" && r.value.audio in report.value.streams
  {
    match report
    case None => None
    case Some(p) =>
      match (FirstOfKind(p.streams, "video"), FirstOfKind(p.streams, "audio"))
      case (Some(v), Some(a)) => Some(MediaInfo(p.duration, p.streams[v], p.streams[a]))
      case _ => None
  }

  /** The video stream handed back is the first one, even when several are present. */
  lemma {:induction false} FirstVideoStreamChosen(p: ProbeReport, i: nat)
    requires i < |p.streams| && p.streams[i].codecType == "video"
    requires forall j :: 0 <= j < i ==> p.streams[j].codecType != "video"
    requires HasKind(p.streams, "audio")
    ensures GetVideoFileInfo(Some(p)).Some? && GetVideoFileInfo(Some(p)).value.video == p.streams[i]
  {
    var v := FirstOfKind(p.streams, "video");
    assert v.Some?;
    assert v.value == i;
  }
}
