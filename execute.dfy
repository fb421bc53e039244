/** The driver of video_ocr/execute.py: load or create a Video, download the
    video file when it is missing, run one stage, persist. Each function of
    the source is a method on a Video and the Host; each has a pure
    counterpart on records and host states (`...Run`) that its contract
    equals and that the lemmas below are about. */
module Execute {
  import opened Base
  import opened Ocr
  import opened Records
  import opened World
  import opened Videos

  /** What part of the pipeline returns or raises, and the host afterwards. */
  datatype Run<T> = Run(result: Result<T>, after: State)

  /** `Video(video_id)`: default frame rate, no frames. */
  function Fresh(videoId: string): Record
  {
    Record(videoId, DefaultFrameRate, [])
  }

  /** The Video `load_or_create_video` holds before its download check. Only
      the serialiser's error is caught; a missing record file, and one that
      is not JSON, raise. */
  function LoadedOrFresh(root: Path, videoId: string, load: bool, records: map<Path, Stored>): (r: Result<Record>)
    ensures r.Success? ==> Distinct(FrameNames(r.value.frames))
    ensures !load ==> r == Success(Fresh(videoId))
    ensures var json := JsonFile(root, videoId);
            load ==> (r.Failure? <==> json !in records || records[json].NotJson?)
    ensures var json := JsonFile(root, videoId);
            r.Failure? ==> r.error == if json !in records then FileNotFound(json) else JsonDecode(json)
    ensures load && JsonFile(root, videoId) in records && !records[JsonFile(root, videoId)].NotJson? ==>
              var stored := records[JsonFile(root, videoId)];
              if stored.Parsed? && Distinct(FrameNames(stored.record.frames))
              then r == Success(stored.record)
              else r == Success(Fresh(videoId))
  {
    if !load then Success(Fresh(videoId))
    else match Load(root, videoId, records)
      case Failure(Serde) => Success(Fresh(videoId))
      case other => other
  }

  /** `load_or_create_video(video_id, load)`. The download is asked for only
      when the video file is missing; `delivered` says whether it arrives. */
  function LoadOrCreate(root: Path, videoId: string, load: bool, s: State, delivered: bool): (r: Run<Record>)
    ensures var loaded := LoadedOrFresh(root, videoId, load, s.records);
            loaded.Failure? ==> r == Run(Failure(loaded.error), s)
    ensures var loaded := LoadedOrFresh(root, videoId, load, s.records);
            loaded.Success? ==>
              var videoPath := VideoPath(root, loaded.value.videoId);
              // the download is requested exactly when the video file is missing, and once
              && (videoPath in s.files ==> r == Run(loaded, s))
              && (videoPath !in s.files ==> r.after.trace == s.trace + [DownloadRequested(videoPath)])
              && r.after.images == s.images && r.after.records == s.records && r.after.keyFiles == s.keyFiles
              && (r.result.Success? <==> videoPath in s.files || delivered)
              && (r.result.Success? ==> r.result == loaded && r.after.files == s.files + {videoPath})
              && (r.result.Failure? ==> r.result.error == DownloadFailed(loaded.value.videoId) && r.after.files == s.files)
  {
    match LoadedOrFresh(root, videoId, load, s.records)
    case Failure(e) => Run(Failure(e), s)
    case Success(rec) =>
      var videoPath := VideoPath(root, rec.videoId);
      if videoPath in s.files then Run(Success(rec), s)
      else
        var asked := s.(trace := s.trace + [DownloadRequested(videoPath)]);
        if delivered then Run(Success(rec), asked.(files := asked.files + {videoPath}))
        else Run(Failure(DownloadFailed(rec.videoId)), asked)
  }

  /** `to_json()` on a host state. */
  function Persist(root: Path, rec: Record, s: State): State
  {
    var json := JsonFile(root, rec.videoId);
    s.(records := s.records[json := Parsed(rec)], trace := s.trace + [RecordWritten(json)])
  }

  /** `save_frames(video)`. */
  function SaveFramesRun(root: Path, rec: Record, s: State, decode: Decoder): (r: Run<Record>)
    requires Distinct(FrameNames(rec.frames))
    ensures r.result.Success? ==> Distinct(FrameNames(r.result.value.frames))
    // a Video that has frames is left alone: nothing decoded, written or persisted
    ensures rec.frames != [] ==> r == Run(Success(rec), s)
    ensures var source := Decoded(VideoPath(root, rec.videoId), s.files, decode);
            rec.frames == [] ==>
              && (r.result.Failure? <==> rec.frameRate == 0 && source != [])
              && (r.result.Failure? ==> r == Run(Failure(ZeroDivision), s))
              && (r.result.Success? ==>
                    && r.result.value == rec.(frames := Extracted(DefaultPrefix, rec.frameRate, |source|))
                    && |r.result.value.frames| == |SampledIndices(rec.frameRate, |source|)|
                    && r.after.files == s.files && r.after.keyFiles == s.keyFiles
                    && r.after.images == s.images + FrameImages(FramesDir(root, rec.videoId), DefaultPrefix, rec.frameRate, source, |source|)
                    && r.after.records == s.records[JsonFile(root, rec.videoId) := Parsed(r.result.value)]
                    && r.after.trace == s.trace + ImageWrites(FramePaths(FramesDir(root, rec.videoId), r.result.value.frames))
                                                + [RecordWritten(JsonFile(root, rec.videoId))])
  {
    if rec.frames != [] then Run(Success(rec), s)
    else
      var source := Decoded(VideoPath(root, rec.videoId), s.files, decode);
      if rec.frameRate == 0 && source != [] then Run(Failure(ZeroDivision), s)
      else
        var framesDir := FramesDir(root, rec.videoId);
        var framed := rec.(frames := Extracted(DefaultPrefix, rec.frameRate, |source|));
        ExtractedNamesDistinct(DefaultPrefix, rec.frameRate, |source|);
        ExtractedFrames(DefaultPrefix, rec.frameRate, |source|);
        var written := s.(images := s.images + FrameImages(framesDir, DefaultPrefix, rec.frameRate, source, |source|),
                          trace := s.trace + ImageWrites(FramePaths(framesDir, framed.frames)));
        Run(Success(framed), Persist(root, framed, written))
  }

  /** `save_ocr_results(video)`: no check for results already present. */
  function SaveOcrRun(root: Path, rec: Record, s: State, detect: Detector): (r: Run<Record>)
    // never skipped and never failing: one detection call per frame, then one write
    ensures r.result == Success(rec.(frames := Recognized(FramesDir(root, rec.videoId), rec.frames, detect)))
    ensures FrameNames(r.result.value.frames) == FrameNames(rec.frames)
    ensures r.result.value.videoId == rec.videoId && r.result.value.frameRate == rec.frameRate
    ensures r.after.files == s.files && r.after.images == s.images && r.after.keyFiles == s.keyFiles
    ensures r.after.records == s.records[JsonFile(root, rec.videoId) := Parsed(r.result.value)]
    ensures r.after.trace == s.trace + DetectCalls(FramePaths(FramesDir(root, rec.videoId), rec.frames))
                                     + [RecordWritten(JsonFile(root, rec.videoId))]
  {
    RecognizedFrames(FramesDir(root, rec.videoId), rec.frames, detect);
    var framesDir := FramesDir(root, rec.videoId);
    var recognized := rec.(frames := Recognized(framesDir, rec.frames, detect));
    var detected := s.(trace := s.trace + DetectCalls(FramePaths(framesDir, rec.frames)));
    Run(Success(recognized), Persist(root, recognized, detected))
  }

  /** `execute_save_frames(video_id)`: a fresh Video, never a loaded one. */
  function ExecuteSaveFramesRun(root: Path, videoId: string, s: State, decode: Decoder, delivered: bool): (r: Run<Record>)
    ensures var videoPath := VideoPath(root, videoId);
            && (r.result.Failure? <==> videoPath !in s.files && !delivered)
            && (r.result.Failure? ==>
                  r == Run(Failure(DownloadFailed(videoId)), s.(trace := s.trace + [DownloadRequested(videoPath)])))
    // load or create, then the download check, then extraction, then one write
    ensures var videoPath := VideoPath(root, videoId);
            r.result.Success? ==>
              && r.result.value == Record(videoId, DefaultFrameRate, Extracted(DefaultPrefix, DefaultFrameRate, |decode(videoPath)|))
              && r.after.files == s.files + {videoPath} && r.after.keyFiles == s.keyFiles
              && r.after.images == s.images + FrameImages(FramesDir(root, videoId), DefaultPrefix, DefaultFrameRate, decode(videoPath), |decode(videoPath)|)
              && r.after.records == s.records[JsonFile(root, videoId) := Parsed(r.result.value)]
              && r.after.trace == s.trace + (if videoPath in s.files then [] else [DownloadRequested(videoPath)])
                                          + ImageWrites(FramePaths(FramesDir(root, videoId), r.result.value.frames))
                                          + [RecordWritten(JsonFile(root, videoId))]
  {
    var loaded := LoadOrCreate(root, videoId, false, s, delivered);
    match loaded.result
    case Failure(_) => loaded
    case Success(rec) => SaveFramesRun(root, rec, loaded.after, decode)
  }

  /** `execute_save_results(video_id)`: the stored Video, if it loads. */
  function ExecuteSaveResultsRun(root: Path, videoId: string, s: State, detect: Detector, delivered: bool): (r: Run<Record>)
    ensures JsonFile(root, videoId) !in s.records ==> r == Run(Failure(FileNotFound(JsonFile(root, videoId))), s)
    ensures JsonFile(root, videoId) in s.records && s.records[JsonFile(root, videoId)].NotJson? ==>
              r == Run(Failure(JsonDecode(JsonFile(root, videoId))), s)
    // load (or fall back to a fresh Video), then the download check, then the OCR pass, then one write
    ensures var loaded := LoadedOrFresh(root, videoId, true, s.records);
            loaded.Success? ==>
              var rec := loaded.value;
              var videoPath := VideoPath(root, rec.videoId);
              && (r.result.Failure? <==> videoPath !in s.files && !delivered)
              && (r.result.Failure? ==>
                    r == Run(Failure(DownloadFailed(rec.videoId)), s.(trace := s.trace + [DownloadRequested(videoPath)])))
              && (r.result.Success? ==>
                    && r.result.value == rec.(frames := Recognized(FramesDir(root, rec.videoId), rec.frames, detect))
                    && r.after.files == s.files + {videoPath} && r.after.images == s.images && r.after.keyFiles == s.keyFiles
                    && r.after.records == s.records[JsonFile(root, rec.videoId) := Parsed(r.result.value)]
                    && r.after.trace == s.trace + (if videoPath in s.files then [] else [DownloadRequested(videoPath)])
                                                + DetectCalls(FramePaths(FramesDir(root, rec.videoId), rec.frames))
                                                + [RecordWritten(JsonFile(root, rec.videoId))])
  {
    var loaded := LoadOrCreate(root, videoId, true, s, delivered);
    match loaded.result
    case Failure(_) => loaded
    case Success(rec) =>
      var videoPath := VideoPath(root, rec.videoId);
      assert loaded.after == s.(files := s.files + {videoPath},
                                trace := s.trace + (if videoPath in s.files then [] else [DownloadRequested(videoPath)]));
      SaveOcrRun(root, rec, loaded.after, detect)
  }

  // ----- Properties of the driver -----

  /** `save_frames` on a Video without frames writes its record exactly once,
      as the last thing it does. */
  lemma SaveFramesPersistsOnceLast(root: Path, rec: Record, s: State, decode: Decoder)
    requires Distinct(FrameNames(rec.frames)) && rec.frames == []
    requires SaveFramesRun(root, rec, s, decode).result.Success?
    ensures var r := SaveFramesRun(root, rec, s, decode);
            var written := RecordWritten(JsonFile(root, rec.videoId));
            && r.after.trace[|r.after.trace| - 1] == written
            && multiset(r.after.trace)[written] == multiset(s.trace)[written] + 1
  {
  }

  /** `save_ocr_results` writes its record exactly once, last, even when
      every frame already has results. */
  lemma SaveOcrPersistsOnceLast(root: Path, rec: Record, s: State, detect: Detector)
    ensures var r := SaveOcrRun(root, rec, s, detect);
            var written := RecordWritten(JsonFile(root, rec.videoId));
            && |r.after.trace| == |s.trace| + |rec.frames| + 1
            && r.after.trace[|r.after.trace| - 1] == written
            && multiset(r.after.trace)[written] == multiset(s.trace)[written] + 1
  {
  }

  /** Running `execute_save_frames` a second time leaves the files, images
      and records as the first run left them (and, by
      `ExecuteSaveFramesWithFile`, downloads nothing). */
  lemma ExecuteSaveFramesRerun(root: Path, videoId: string, s: State, decode: Decoder, delivered: bool)
    requires ExecuteSaveFramesRun(root, videoId, s, decode, delivered).result.Success?
    ensures var first := ExecuteSaveFramesRun(root, videoId, s, decode, delivered);
            var second := ExecuteSaveFramesRun(root, videoId, first.after, decode, delivered);
            && second.result == first.result
            && second.after.files == first.after.files
            && second.after.images == first.after.images
            && second.after.records == first.after.records
  {
  }

  /** With the video file present, `execute_save_frames` downloads nothing:
      it extracts, then writes the record. */
  lemma ExecuteSaveFramesWithFile(root: Path, videoId: string, t: State, decode: Decoder, delivered: bool)
    requires VideoPath(root, videoId) in t.files
    ensures var r := ExecuteSaveFramesRun(root, videoId, t, decode, delivered);
            var videoPath := VideoPath(root, videoId);
            && r.result == Success(Record(videoId, DefaultFrameRate, Extracted(DefaultPrefix, DefaultFrameRate, |decode(videoPath)|)))
            && r.after.files == t.files
            && r.after.images == t.images + FrameImages(FramesDir(root, videoId), DefaultPrefix, DefaultFrameRate, decode(videoPath), |decode(videoPath)|)
            && r.after.records == t.records[JsonFile(root, videoId) := Parsed(r.result.value)]
            && r.after.trace == t.trace + ImageWrites(FramePaths(FramesDir(root, videoId), r.result.value.frames))
                                        + [RecordWritten(JsonFile(root, videoId))]
  {
  }

  /** Running `execute_save_results` a second time with the same detector
      gives the same Video and leaves the files and records as the first run
      left them. */
  lemma ExecuteSaveResultsRerun(root: Path, videoId: string, s: State, detect: Detector, delivered: bool)
    ensures var first := ExecuteSaveResultsRun(root, videoId, s, detect, delivered);
            var second := ExecuteSaveResultsRun(root, videoId, first.after, detect, delivered);
            && second.result == first.result
            && second.after.files == first.after.files
            && second.after.images == first.after.images
            && second.after.records == first.after.records
  {
    var first := ExecuteSaveResultsRun(root, videoId, s, detect, delivered);
    var json := JsonFile(root, videoId);
    if json in s.records && first.result.Success? {
      var rec := LoadedOrFresh(root, videoId, true, s.records).value;
      var framesDir := FramesDir(root, rec.videoId);
      var done := first.result.value;
      RecognizedFrames(framesDir, rec.frames, detect);
      RecognizedIdempotent(framesDir, rec.frames, detect);
      if JsonFile(root, rec.videoId) == json {
        // the second run loads what the first one wrote, and the pass changes nothing
        assert first.after.records[json] == Parsed(done);
        assert LoadedOrFresh(root, videoId, true, first.after.records) == Success(done);
        assert Recognized(framesDir, done.frames, detect) == done.frames;
      } else {
        // the record under `videoId` is untouched and is loaded again
        assert first.after.records[json] == s.records[json];
        assert LoadedOrFresh(root, videoId, true, first.after.records) == Success(rec);
      }
    }
  }

  /** A successful `execute_save_frames` stores the extracted frames under
      the requested identifier and leaves the video file in place. */
  lemma ExecuteSaveFramesStores(root: Path, videoId: string, s: State, decode: Decoder, delivered: bool)
    requires ExecuteSaveFramesRun(root, videoId, s, decode, delivered).result.Success?
    ensures var first := ExecuteSaveFramesRun(root, videoId, s, decode, delivered);
            && VideoPath(root, videoId) in first.after.files
            && first.result.value == Record(videoId, DefaultFrameRate, Extracted(DefaultPrefix, DefaultFrameRate, |decode(VideoPath(root, videoId))|))
            && JsonFile(root, videoId) in first.after.records
            && first.after.records[JsonFile(root, videoId)] == Parsed(first.result.value)
  {
  }

  /** `execute_save_results` on a host holding a valid record for the
      identifier and its video file runs the OCR pass over that record. */
  lemma ExecuteSaveResultsOnStored(root: Path, rec: Record, t: State, detect: Detector, delivered: bool)
    requires Distinct(FrameNames(rec.frames))
    requires JsonFile(root, rec.videoId) in t.records && t.records[JsonFile(root, rec.videoId)] == Parsed(rec)
    requires VideoPath(root, rec.videoId) in t.files
    ensures var second := ExecuteSaveResultsRun(root, rec.videoId, t, detect, delivered);
            && second.result == Success(rec.(frames := Recognized(FramesDir(root, rec.videoId), rec.frames, detect)))
            && second.after.records[JsonFile(root, rec.videoId)] == Parsed(second.result.value)
  {
  }

  /** Index i is sampled, so some extracted frame is named after it. */
  lemma SampledFrameNamed(prefix: string, frameRate: int, count: nat, i: nat)
    requires frameRate != 0 && i < count && i % frameRate == 0
    ensures exists j | 0 <= j < |Extracted(prefix, frameRate, count)| ::
              Extracted(prefix, frameRate, count)[j].fileName == FrameName(prefix, i)
  {
    SampledIndicesExact(frameRate, count);
    ExtractedFrames(prefix, frameRate, count);
    var idx := SampledIndices(frameRate, count);
    assert i in idx;
    var j :| 0 <= j < |idx| && idx[j] == i;
    assert Extracted(prefix, frameRate, count)[j].fileName == FrameName(prefix, i);
  }

  /** Frame extraction followed by the OCR pass leaves, both in the returned
      Video and in the stored record, some frame with results, provided the
      detector finds text in one of the sampled frames. */
  lemma FramesThenResultsFindText(root: Path, videoId: string, s: State, decode: Decoder, detect: Detector,
                                  delivered: bool, i: nat)
    requires VideoPath(root, videoId) in s.files || delivered
    requires i < |decode(VideoPath(root, videoId))| && i % DefaultFrameRate == 0
    requires detect(Join(FramesDir(root, videoId), FrameName(DefaultPrefix, i))) != []
    ensures var first := ExecuteSaveFramesRun(root, videoId, s, decode, delivered);
            var second := ExecuteSaveResultsRun(root, videoId, first.after, detect, delivered);
            && second.result.Success?
            && second.after.records[JsonFile(root, videoId)] == Parsed(second.result.value)
            && exists j | 0 <= j < |second.result.value.frames| :: second.result.value.frames[j].results != []
  {
    var first := ExecuteSaveFramesRun(root, videoId, s, decode, delivered);
    ExecuteSaveFramesStores(root, videoId, s, decode, delivered);
    var framed := first.result.value;
    var count := |decode(VideoPath(root, videoId))|;
    ExtractedNamesDistinct(DefaultPrefix, DefaultFrameRate, count);
    ExecuteSaveResultsOnStored(root, framed, first.after, detect, delivered);
    SampledFrameNamed(DefaultPrefix, DefaultFrameRate, count, i);
    var j :| 0 <= j < |framed.frames| && framed.frames[j].fileName == FrameName(DefaultPrefix, i);
    RecognizedFindsText(FramesDir(root, videoId), framed.frames, detect, j);
  }

  // ----- The driver as methods on a Video and the Host -----

  method LoadOrCreateVideo(root: Path, videoId: string, load: bool, host: Host, delivered: bool) returns (r: Result<Video>)
    modifies host`files, host`trace
    ensures host.Snapshot() == LoadOrCreate(root, videoId, load, old(host.Snapshot()), delivered).after
    ensures var run := LoadOrCreate(root, videoId, load, old(host.Snapshot()), delivered);
            && (run.result.Failure? ==> r == Failure(run.result.error))
            && (run.result.Success? ==>
                  && r.Success? && fresh(r.value) && r.value.Valid() && r.value.PlacedUnder(root)
                  && r.value.Persisted() == run.result.value && r.value.lenFrames == None)
  {
    var video: Video;
    if load {
      var loaded := FromJson(root, videoId, host);
      if loaded.Failure? {
        if loaded.error != Serde {
          return Failure(loaded.error);
        }
        video := new Video(root, videoId, DefaultFrameRate, []);
      } else {
        video := loaded.value;
      }
    } else {
      video := new Video(root, videoId, DefaultFrameRate, []);
    }
    if video.videoPath !in host.files {
      var downloaded := video.DownloadVideo(host, delivered);
      if downloaded.Fail? {
        return Failure(downloaded.error);
      }
    }
    r := Success(video);
  }

  method SaveFrames(root: Path, video: Video, host: Host, decode: Decoder) returns (r: Outcome)
    requires video.Valid() && video.PlacedUnder(root)
    modifies video`frames, video`lenFrames, host`images, host`records, host`trace
    ensures video.Valid()
    ensures host.Snapshot() == SaveFramesRun(root, old(video.Persisted()), old(host.Snapshot()), decode).after
    ensures var run := SaveFramesRun(root, old(video.Persisted()), old(host.Snapshot()), decode);
            && (run.result.Failure? ==> r == Fail(run.result.error))
            && (run.result.Success? ==> r == Pass && video.Persisted() == run.result.value)
    // `len_frames` is set only by an extraction that completes; otherwise the Video is untouched
    ensures var run := SaveFramesRun(root, old(video.Persisted()), old(host.Snapshot()), decode);
            old(video.frames) == [] && run.result.Success? ==> video.lenFrames == Some(|video.frames|)
    ensures var run := SaveFramesRun(root, old(video.Persisted()), old(host.Snapshot()), decode);
            old(video.frames) != [] || run.result.Failure? ==>
              video.frames == old(video.frames) && video.lenFrames == old(video.lenFrames)
  {
    if video.frames == [] {
      var sampled := video.ToFrames(DefaultPrefix, decode, host);
      if sampled.Failure? {
        return Fail(sampled.error);
      }
      var _ := video.ToJson(root, host);
    }
    r := Pass;
  }

  method SaveOcrResults(root: Path, video: Video, host: Host, detect: Detector)
    requires video.Valid() && video.PlacedUnder(root)
    modifies video`frames, host`records, host`trace
    ensures video.Valid()
    ensures host.Snapshot() == SaveOcrRun(root, old(video.Persisted()), old(host.Snapshot()), detect).after
    ensures video.Persisted() == SaveOcrRun(root, old(video.Persisted()), old(host.Snapshot()), detect).result.value
  {
    ghost var before := host.Snapshot();
    ghost var rec := video.Persisted();
    var _ := video.GetFramesOcr(detect, host);
    ghost var detected := before.(trace := before.trace + DetectCalls(FramePaths(video.framesDir, rec.frames)));
    assert host.Snapshot() == detected;
    var _ := video.ToJson(root, host);
    assert host.Snapshot() == Persist(root, video.Persisted(), detected);
  }

  method ExecuteSaveFrames(root: Path, videoId: string, host: Host, decode: Decoder, delivered: bool) returns (r: Outcome)
    modifies host`files, host`images, host`records, host`trace
    ensures var run := ExecuteSaveFramesRun(root, videoId, old(host.Snapshot()), decode, delivered);
            && host.Snapshot() == run.after
            && (run.result.Failure? ==> r == Fail(run.result.error))
            && (run.result.Success? ==> r == Pass)
  {
    var video := LoadOrCreateVideo(root, videoId, false, host, delivered);
    if video.Failure? {
      return Fail(video.error);
    }
    r := SaveFrames(root, video.value, host, decode);
  }

  method ExecuteSaveResults(root: Path, videoId: string, host: Host, detect: Detector, delivered: bool) returns (r: Outcome)
    modifies host`files, host`records, host`trace
    ensures var run := ExecuteSaveResultsRun(root, videoId, old(host.Snapshot()), detect, delivered);
            && host.Snapshot() == run.after
            && (run.result.Failure? ==> r == Fail(run.result.error))
            && (run.result.Success? ==> r == Pass)
  {
    var video := LoadOrCreateVideo(root, videoId, true, host, delivered);
    if video.Failure? {
      return Fail(video.error);
    }
    SaveOcrResults(root, video.value, host, detect);
    r := Pass;
  }
}
