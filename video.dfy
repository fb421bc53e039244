/** `Video` of video_ocr/video.py: the processing state of one video, the
    paths derived from its identifier, frame sampling (`to_frames`), the OCR
    pass (`get_frames_ocr`) and the persisted record (`to_json`, `from_json`). */
module Videos {
  import opened Base
  import opened Decimal
  import opened Ocr
  import opened Records
  import opened World

  const DefaultFrameRate: int := 100
  const DefaultPrefix: string := "frame-"

  // ----- Paths derived from the data root and the video identifier -----

  function VideoDir(root: Path, videoId: string): Path
  {
    Join(Join(root, "videos"), videoId)
  }

  function VideoPath(root: Path, videoId: string): Path
  {
    Join(VideoDir(root, videoId), "video.mp4")
  }

  function FramesDir(root: Path, videoId: string): Path
  {
    Join(VideoDir(root, videoId), "frame")
  }

  /** `get_json_file`: computed on its own, not from the Video's fields. */
  function JsonFile(root: Path, videoId: string): Path
  {
    Join(Join(Join(root, "videos"), videoId), "video.json")
  }

  /** The layout of a video's directory, and that the video file, the frames
      directory and the record are three different paths. */
  lemma PathLayout(root: Path, videoId: string)
    ensures VideoPath(root, videoId) == root + "/videos/" + videoId + "/video.mp4"
    ensures FramesDir(root, videoId) == root + "/videos/" + videoId + "/frame"
    ensures JsonFile(root, videoId) == root + "/videos/" + videoId + "/video.json"
    ensures VideoPath(root, videoId) != FramesDir(root, videoId)
    ensures VideoPath(root, videoId) != JsonFile(root, videoId)
    ensures FramesDir(root, videoId) != JsonFile(root, videoId)
  {
  }

  // ----- Frame names and paths -----

  function FrameNames(frames: seq<Frame>): (names: seq<string>)
    ensures |names| == |frames|
    ensures forall i | 0 <= i < |frames| :: names[i] == frames[i].fileName
  {
    if frames == [] then [] else [frames[0].fileName] + FrameNames(frames[1..])
  }

  /** The `frame_paths` property: one path per frame, in frame order. */
  function FramePaths(framesDir: Path, frames: seq<Frame>): (paths: seq<Path>)
    ensures |paths| == |frames|
    ensures forall i | 0 <= i < |frames| :: paths[i] == Join(framesDir, frames[i].fileName)
  {
    if frames == [] then [] else [Join(framesDir, frames[0].fileName)] + FramePaths(framesDir, frames[1..])
  }

  lemma FramePathsAppend(framesDir: Path, frames: seq<Frame>, f: Frame)
    ensures FramePaths(framesDir, frames + [f]) == FramePaths(framesDir, frames) + [Join(framesDir, f.fileName)]
  {
  }

  /** The construction check compares `len(set(frame_paths))` with
      `len(frame_paths)`; it passes exactly when no file name occurs twice. */
  lemma UniquePathsIffDistinctNames(framesDir: Path, frames: seq<Frame>)
    ensures |ToSet(FramePaths(framesDir, frames))| == |frames| <==> Distinct(FrameNames(frames))
  {
    var paths := FramePaths(framesDir, frames);
    var names := FrameNames(frames);
    ToSetSize(paths);
    forall i, j | 0 <= i < j < |frames|
      ensures paths[i] == paths[j] <==> names[i] == names[j]
    {
      JoinInjective(framesDir, names[i], names[j]);
    }
  }

  /** `Video(video_id, frame_rate, frames)` together with `__post_init__`'s
      validation, on values: a frame list is accepted exactly when its file
      names are pairwise different. */
  function Construct(root: Path, videoId: string, frameRate: int, frames: seq<Frame>): (r: Result<Record>)
    ensures r.Success? <==> Distinct(FrameNames(frames))
    ensures r.Success? ==> r.value == Record(videoId, frameRate, frames)
    ensures r.Failure? ==> r.error == DuplicateFramePaths
  {
    var paths := FramePaths(FramesDir(root, videoId), frames);
    UniquePathsIffDistinctNames(FramesDir(root, videoId), frames);
    if frames != [] && |ToSet(paths)| != |paths| then Failure(DuplicateFramePaths)
    else Success(Record(videoId, frameRate, frames))
  }

  /** A record with two frames of the same name is refused. */
  lemma DuplicateNamesRejected(root: Path, videoId: string, frameRate: int, frames: seq<Frame>, i: nat, j: nat)
    requires i < j < |frames| && frames[i].fileName == frames[j].fileName
    ensures Construct(root, videoId, frameRate, frames) == Failure(DuplicateFramePaths)
  {
  }

  // ----- Frame sampling -----

  /** `f"{prefix}{index}.png"`. */
  function FrameName(prefix: string, index: nat): string
  {
    prefix + NatToString(index) + ".png"
  }

  lemma FrameNameInjective(prefix: string, i: nat, j: nat)
    ensures FrameName(prefix, i) == FrameName(prefix, j) <==> i == j
  {
    if FrameName(prefix, i) == FrameName(prefix, j) {
      var a := FrameName(prefix, i);
      assert NatToString(i) == a[|prefix|..|a| - 4];
      assert NatToString(j) == a[|prefix|..|a| - 4];
      NatToStringInjective(i, j);
    }
  }

  /** The decode indices below `count` that sampling keeps, in decode order.
      Python's `index % frame_rate == 0` and Dafny's agree for every non-zero
      divisor, negative ones included: both hold exactly when the divisor
      divides the index. */
  function SampledIndices(frameRate: int, count: nat): (r: seq<nat>)
    requires frameRate != 0 || count == 0
  {
    if count == 0 then []
    else SampledIndices(frameRate, count - 1) + (if (count - 1) % frameRate == 0 then [count - 1] else [])
  }

  /** Sampling keeps exactly the indices below `count` that the frame rate divides. */
  lemma {:induction false} SampledIndicesExact(frameRate: int, count: nat)
    requires frameRate != 0
    ensures forall i :: i in SampledIndices(frameRate, count) <==> 0 <= i < count && i % frameRate == 0
  {
    if count > 0 {
      SampledIndicesExact(frameRate, count - 1);
    }
  }

  /** The kept indices are strictly increasing and below `count`. */
  lemma {:induction false} SampledIndicesIncreasing(frameRate: int, count: nat)
    requires frameRate != 0
    ensures forall a | 0 <= a < |SampledIndices(frameRate, count)| :: SampledIndices(frameRate, count)[a] < count
    ensures forall a, b | 0 <= a < b < |SampledIndices(frameRate, count)| ::
              SampledIndices(frameRate, count)[a] < SampledIndices(frameRate, count)[b]
  {
    if count > 0 {
      SampledIndicesIncreasing(frameRate, count - 1);
    }
  }

  lemma DivUnique(a: int, r: int, q: int, m: int)
    requires r > 0 && a == q * r + m && 0 <= m < r
    ensures a / r == q
  {
    var q', m' := a / r, a % r;
    assert a == r * q' + m';
    var d := q - q';
    assert d * r == m' - m by {
      assert q * r - q' * r == (q - q') * r;
    }
  }

  lemma CeilStep(count: nat, r: int)
    requires r > 0 && count >= 1
    ensures (count + r - 1) / r == (count - 1 + r - 1) / r + (if (count - 1) % r == 0 then 1 else 0)
  {
    var a := count - 1;
    var q, m := a / r, a % r;
    assert a == q * r + m;
    DivUnique(a + r, r, q + 1, m);
    if m == 0 {
      DivUnique(a + r - 1, r, q, r - 1);
    } else {
      DivUnique(a + r - 1, r, q + 1, m - 1);
    }
  }

  /** From `count` decoded frames, sampling with a positive rate keeps
      ceil(count / rate) of them. */
  lemma {:induction false} SampledCount(frameRate: int, count: nat)
    requires frameRate > 0
    ensures |SampledIndices(frameRate, count)| == (count + frameRate - 1) / frameRate
  {
    if count == 0 {
      DivUnique(frameRate - 1, frameRate, 0, frameRate - 1);
    } else {
      SampledCount(frameRate, count - 1);
      CeilStep(count, frameRate);
    }
  }

  /** The frames `to_frames` builds from `count` decoded frames. */
  function Extracted(prefix: string, frameRate: int, count: nat): seq<Frame>
    requires frameRate != 0 || count == 0
  {
    if count == 0 then []
    else Extracted(prefix, frameRate, count - 1)
         + (if (count - 1) % frameRate == 0 then [Frame(FrameName(prefix, count - 1), [])] else [])
  }

  /** Frame j of the extraction is named after the j-th kept index and has no
      results yet. */
  lemma {:induction false} ExtractedFrames(prefix: string, frameRate: int, count: nat)
    requires frameRate != 0 || count == 0
    ensures |Extracted(prefix, frameRate, count)| == |SampledIndices(frameRate, count)|
    ensures forall j | 0 <= j < |SampledIndices(frameRate, count)| ::
              Extracted(prefix, frameRate, count)[j] == Frame(FrameName(prefix, SampledIndices(frameRate, count)[j]), [])
  {
    if count > 0 {
      ExtractedFrames(prefix, frameRate, count - 1);
    }
  }

  /** The extracted frames pass the construction check: their names, hence
      their paths, are pairwise different. */
  lemma ExtractedNamesDistinct(prefix: string, frameRate: int, count: nat)
    requires frameRate != 0 || count == 0
    ensures Distinct(FrameNames(Extracted(prefix, frameRate, count)))
  {
    if count > 0 {
      var frames := Extracted(prefix, frameRate, count);
      var idx := SampledIndices(frameRate, count);
      ExtractedFrames(prefix, frameRate, count);
      SampledIndicesIncreasing(frameRate, count);
      forall a, b | 0 <= a < b < |frames|
        ensures frames[a].fileName != frames[b].fileName
      {
        FrameNameInjective(prefix, idx[a], idx[b]);
      }
    }
  }

  /** The images `to_frames` writes: kept frame i of `source` at its path. */
  function FrameImages(framesDir: Path, prefix: string, frameRate: int, source: seq<Image>, count: nat): map<Path, Image>
    requires count <= |source| && (frameRate != 0 || count == 0)
  {
    if count == 0 then map[]
    else
      var written := FrameImages(framesDir, prefix, frameRate, source, count - 1);
      if (count - 1) % frameRate == 0
      then written[Join(framesDir, FrameName(prefix, count - 1)) := source[count - 1]]
      else written
  }

  /** Each kept index i is written, at its frame's path, with decoded frame i. */
  lemma {:induction false} FrameImagesValues(framesDir: Path, prefix: string, frameRate: int, source: seq<Image>, count: nat)
    requires count <= |source| && frameRate != 0
    ensures forall i | 0 <= i < count && i % frameRate == 0 ::
              && Join(framesDir, FrameName(prefix, i)) in FrameImages(framesDir, prefix, frameRate, source, count)
              && FrameImages(framesDir, prefix, frameRate, source, count)[Join(framesDir, FrameName(prefix, i))] == source[i]
  {
    if count > 0 {
      var k := count - 1;
      FrameImagesValues(framesDir, prefix, frameRate, source, k);
      if k % frameRate == 0 {
        forall i | 0 <= i < k && i % frameRate == 0
          ensures Join(framesDir, FrameName(prefix, i)) != Join(framesDir, FrameName(prefix, k))
        {
          FrameNameInjective(prefix, i, k);
          JoinInjective(framesDir, FrameName(prefix, i), FrameName(prefix, k));
        }
      }
    }
  }

  /** Nothing but the paths of the extracted frames is written. */
  lemma {:induction false} FrameImagesKeys(framesDir: Path, prefix: string, frameRate: int, source: seq<Image>, count: nat)
    requires count <= |source| && frameRate != 0
    ensures FrameImages(framesDir, prefix, frameRate, source, count).Keys
            == ToSet(FramePaths(framesDir, Extracted(prefix, frameRate, count)))
  {
    if count > 0 {
      var k := count - 1;
      FrameImagesKeys(framesDir, prefix, frameRate, source, k);
      var before := Extracted(prefix, frameRate, k);
      var written := FrameImages(framesDir, prefix, frameRate, source, k);
      if k % frameRate == 0 {
        var f := Frame(FrameName(prefix, k), []);
        var p := Join(framesDir, f.fileName);
        assert Extracted(prefix, frameRate, count) == before + [f];
        assert FrameImages(framesDir, prefix, frameRate, source, count) == written[p := source[k]];
        FramePathsAppend(framesDir, before, f);
        ToSetAppend(FramePaths(framesDir, before), p);
      } else {
        assert Extracted(prefix, frameRate, count) == before;
        assert FrameImages(framesDir, prefix, frameRate, source, count) == written;
      }
    }
  }

  /** `cv2.VideoCapture` read to the end, as a function of the file path. */
  type Decoder = Path -> seq<Image>

  /** The frames the capture yields: none when the video file is missing
      (`isOpened()` is false and the loop never runs). */
  function Decoded(videoPath: Path, files: set<Path>, decode: Decoder): seq<Image>
  {
    if videoPath in files then decode(videoPath) else []
  }

  // ----- The OCR pass -----

  /** One frame after its detection call: the results are replaced only when
      the detector returned something. */
  function RecognizeFrame(framesDir: Path, frame: Frame, detect: Detector): Frame
  {
    var results := detect(Join(framesDir, frame.fileName));
    if results != [] then frame.(results := results) else frame
  }

  /** The frames after `get_frames_ocr`: the same frames in the same order,
      each passed through its detection call. */
  function Recognized(framesDir: Path, frames: seq<Frame>, detect: Detector): (r: seq<Frame>)
    ensures |r| == |frames|
    ensures forall i | 0 <= i < |frames| :: r[i] == RecognizeFrame(framesDir, frames[i], detect)
  {
    if frames == [] then []
    else [RecognizeFrame(framesDir, frames[0], detect)] + Recognized(framesDir, frames[1..], detect)
  }

  /** The pass keeps every file name and, per frame, takes the detector's
      output when it is non-empty and keeps the old results otherwise. */
  lemma RecognizedFrames(framesDir: Path, frames: seq<Frame>, detect: Detector)
    ensures FrameNames(Recognized(framesDir, frames, detect)) == FrameNames(frames)
    ensures forall i | 0 <= i < |frames| ::
              var found := detect(Join(framesDir, frames[i].fileName));
              Recognized(framesDir, frames, detect)[i].results == if found != [] then found else frames[i].results
  {
  }

  /** With the same detector, a second pass changes nothing. */
  lemma RecognizedIdempotent(framesDir: Path, frames: seq<Frame>, detect: Detector)
    ensures Recognized(framesDir, Recognized(framesDir, frames, detect), detect) == Recognized(framesDir, frames, detect)
  {
  }

  /** If the detector finds text in some frame, some frame carries results
      after the pass. */
  lemma RecognizedFindsText(framesDir: Path, frames: seq<Frame>, detect: Detector, i: nat)
    requires i < |frames| && detect(Join(framesDir, frames[i].fileName)) != []
    ensures exists j | 0 <= j < |frames| :: Recognized(framesDir, frames, detect)[j].results != []
  {
    assert Recognized(framesDir, frames, detect)[i].results != [];
  }

  // ----- Loading a record -----

  /** `Video.from_json(video_id)` on values: a missing record file raises
      from `open`; text that is not JSON raises from `json.loads`; JSON the
      serialiser cannot rebuild, and a record whose frames fail
      `__post_init__`'s check, raise the serialiser's error. */
  function Load(root: Path, videoId: string, records: map<Path, Stored>): (r: Result<Record>)
    ensures r.Success? ==> Distinct(FrameNames(r.value.frames))
    ensures JsonFile(root, videoId) !in records <==> r == Failure(FileNotFound(JsonFile(root, videoId)))
    ensures r == Failure(JsonDecode(JsonFile(root, videoId))) <==>
              JsonFile(root, videoId) in records && records[JsonFile(root, videoId)].NotJson?
    ensures r == Failure(Serde) <==>
              JsonFile(root, videoId) in records && !records[JsonFile(root, videoId)].NotJson?
              && (records[JsonFile(root, videoId)].Parsed? ==> !Distinct(FrameNames(records[JsonFile(root, videoId)].record.frames)))
    ensures r.Success? <==>
              JsonFile(root, videoId) in records && records[JsonFile(root, videoId)].Parsed?
              && Distinct(FrameNames(records[JsonFile(root, videoId)].record.frames))
    ensures r.Success? ==> r.value == records[JsonFile(root, videoId)].record
  {
    var json := JsonFile(root, videoId);
    if json !in records then Failure(FileNotFound(json))
    else match records[json]
      case NotJson => Failure(JsonDecode(json))
      case Rejected => Failure(Serde)
      case Parsed(rec) =>
        match Construct(root, rec.videoId, rec.frameRate, rec.frames)
        case Success(v) => Success(v)
        case Failure(_) => Failure(Serde)
  }

  /** What `to_json` writes, `from_json` reads back: the three persisted
      fields, and with them (recomputed from the identifier) the same paths. */
  lemma SaveThenLoad(root: Path, v: Record, records: map<Path, Stored>)
    requires Distinct(FrameNames(v.frames))
    ensures Load(root, v.videoId, records[JsonFile(root, v.videoId) := Parsed(v)]) == Success(v)
  {
  }

  // ----- The mutable entity -----

  class Video {
    const videoId: string
    const frameRate: int
    var frames: seq<Frame>
    const videoPath: Path
    const framesDir: Path
    /** `len_frames`: an attribute that exists only once `to_frames` has run. */
    var lenFrames: Option<nat>

    /** Frame file names are unique: checked on construction, kept by both stages. */
    predicate Valid()
      reads this
    {
      Distinct(FrameNames(frames))
    }

    /** The paths `__post_init__` derived from the data root. */
    predicate PlacedUnder(root: Path)
      reads this
    {
      videoPath == VideoPath(root, videoId) && framesDir == FramesDir(root, videoId)
    }

    /** The fields the serialiser writes. */
    function Persisted(): Record
      reads this
    {
      Record(videoId, frameRate, frames)
    }

    /** The dataclass constructor for frames that pass the check; `NewVideo`
        is the constructor call that may raise. */
    constructor (root: Path, videoId: string, frameRate: int, frames: seq<Frame>)
      requires Distinct(FrameNames(frames))
      ensures Valid() && PlacedUnder(root)
      ensures Persisted() == Record(videoId, frameRate, frames) && lenFrames == None
    {
      this.videoId := videoId;
      this.frameRate := frameRate;
      this.frames := frames;
      this.videoPath := VideoPath(root, videoId);
      this.framesDir := FramesDir(root, videoId);
      this.lenFrames := None;
    }

    /** `download_video()`: asks the download service for the video; when
        it delivers, the video file exists afterwards. */
    method DownloadVideo(host: Host, delivered: bool) returns (r: Outcome)
      modifies host`files, host`trace
      ensures host.trace == old(host.trace) + [DownloadRequested(videoPath)]
      ensures delivered ==> r == Pass && host.files == old(host.files) + {videoPath}
      ensures !delivered ==> r == Fail(DownloadFailed(videoId)) && host.files == old(host.files)
    {
      host.trace := host.trace + [DownloadRequested(videoPath)];
      if delivered {
        host.files := host.files + {videoPath};
        r := Pass;
      } else {
        r := Fail(DownloadFailed(videoId));
      }
    }

    /** `to_frames(prefix)`: opens the video file, samples its decoded frames
        (see `SampleFrames`) and replaces `frames` with the new list, never
        appending to the old one. */
    method ToFrames(prefix: string, decode: Decoder, host: Host) returns (r: Result<(seq<Frame>, nat)>)
      requires Valid()
      modifies this`frames, this`lenFrames, host`images, host`trace
      ensures Valid()
      ensures var source := Decoded(videoPath, host.files, decode);
              frameRate == 0 && source != [] ==>
                r == Failure(ZeroDivision) && frames == old(frames) && lenFrames == old(lenFrames)
                && host.images == old(host.images) && host.trace == old(host.trace)
      ensures var source := Decoded(videoPath, host.files, decode);
              frameRate != 0 || source == [] ==>
                && frames == Extracted(prefix, frameRate, |source|)
                && lenFrames == Some(|frames|)
                && r == Success((frames, |frames|))
                && host.images == old(host.images) + FrameImages(framesDir, prefix, frameRate, source, |source|)
                && host.trace == old(host.trace) + ImageWrites(FramePaths(framesDir, frames))
    {
      var source := Decoded(videoPath, host.files, decode);
      var sampled := SampleFrames(framesDir, prefix, frameRate, source, host);
      if sampled.Failure? {
        return Failure(sampled.error);
      }
      ExtractedNamesDistinct(prefix, frameRate, |source|);
      frames := sampled.value;
      lenFrames := Some(|frames|);
      r := Success((frames, |frames|));
    }

    /** `get_frames_ocr()`: runs the detection loop (see `DetectFrames`)
        over the current frames and keeps its result. */
    method GetFramesOcr(detect: Detector, host: Host) returns (r: seq<Frame>)
      requires Valid()
      modifies this`frames, host`trace
      ensures Valid()
      ensures frames == Recognized(framesDir, old(frames), detect) && r == frames
      ensures host.trace == old(host.trace) + DetectCalls(FramePaths(framesDir, old(frames)))
    {
      var updated := DetectFrames(framesDir, frames, detect, host);
      RecognizedFrames(framesDir, frames, detect);
      frames := updated;
      r := frames;
    }

    /** `to_json()`: writes the three persisted fields to the record file,
        replacing whatever was there. */
    method ToJson(root: Path, host: Host) returns (jsonFile: Path)
      modifies host`records, host`trace
      ensures jsonFile == JsonFile(root, videoId)
      ensures host.records == old(host.records)[jsonFile := Parsed(Persisted())]
      ensures host.trace == old(host.trace) + [RecordWritten(jsonFile)]
    {
      jsonFile := JsonFile(root, videoId);
      host.records := host.records[jsonFile := Parsed(Persisted())];
      host.trace := host.trace + [RecordWritten(jsonFile)];
    }
  }

  /** The loop of `to_frames`: reads the decoded frames in order, and for
      every index the frame rate divides writes the frame as an image at
      `frame-{index}.png` and adds a Frame with no results. With a frame rate
      of 0 the first decoded frame raises before anything is written. */
  method SampleFrames(framesDir: Path, prefix: string, frameRate: int, source: seq<Image>, host: Host)
    returns (r: Result<seq<Frame>>)
    modifies host`images, host`trace
    ensures frameRate == 0 && source != [] ==>
              r == Failure(ZeroDivision) && host.images == old(host.images) && host.trace == old(host.trace)
    ensures frameRate != 0 || source == [] ==>
              && r == Success(Extracted(prefix, frameRate, |source|))
              && host.images == old(host.images) + FrameImages(framesDir, prefix, frameRate, source, |source|)
              && host.trace == old(host.trace) + ImageWrites(FramePaths(framesDir, r.value))
  {
    var acc: seq<Frame> := [];
    var index: nat := 0;
    while index < |source|
      invariant index <= |source|
      invariant frameRate != 0 || index == 0
      invariant acc == Extracted(prefix, frameRate, index)
      invariant host.images == old(host.images) + FrameImages(framesDir, prefix, frameRate, source, index)
      invariant host.trace == old(host.trace) + ImageWrites(FramePaths(framesDir, acc))
    {
      var image := source[index];
      if frameRate == 0 {
        return Failure(ZeroDivision);
      }
      SampleStep(framesDir, prefix, frameRate, source, index, old(host.images), old(host.trace));
      if index % frameRate == 0 {
        var fileName := FrameName(prefix, index);
        var framePath := Join(framesDir, fileName);
        host.images := host.images[framePath := image];
        host.trace := host.trace + [ImageWritten(framePath)];
        acc := acc + [Frame(fileName, [])];
      }
      index := index + 1;
    }
    r := Success(acc);
  }

  /** One iteration of the sampling loop, on the specification functions:
      index `index` either adds its frame, its image and its write call, or
      adds nothing. */
  lemma SampleStep(framesDir: Path, prefix: string, frameRate: int, source: seq<Image>, index: nat,
                   images: map<Path, Image>, trace: seq<Event>)
    requires frameRate != 0 && index < |source|
    ensures var before := Extracted(prefix, frameRate, index);
            var framePath := Join(framesDir, FrameName(prefix, index));
            if index % frameRate == 0 then
              && Extracted(prefix, frameRate, index + 1) == before + [Frame(FrameName(prefix, index), [])]
              && images + FrameImages(framesDir, prefix, frameRate, source, index + 1)
                 == (images + FrameImages(framesDir, prefix, frameRate, source, index))[framePath := source[index]]
              && trace + ImageWrites(FramePaths(framesDir, Extracted(prefix, frameRate, index + 1)))
                 == trace + ImageWrites(FramePaths(framesDir, before)) + [ImageWritten(framePath)]
            else
              && Extracted(prefix, frameRate, index + 1) == before
              && FrameImages(framesDir, prefix, frameRate, source, index + 1)
                 == FrameImages(framesDir, prefix, frameRate, source, index)
  {
  }

  /** The loop of `get_frames_ocr`: one detection call per frame path, in
      order; frame i's results are overwritten only when its detection is
      non-empty. */
  method DetectFrames(framesDir: Path, frames: seq<Frame>, detect: Detector, host: Host) returns (r: seq<Frame>)
    modifies host`trace
    ensures r == Recognized(framesDir, frames, detect)
    ensures host.trace == old(host.trace) + DetectCalls(FramePaths(framesDir, frames))
  {
    r := frames;
    var paths := FramePaths(framesDir, frames);
    for i := 0 to |paths|
      invariant |r| == |frames|
      invariant forall k | 0 <= k < i :: r[k] == RecognizeFrame(framesDir, frames[k], detect)
      invariant forall k | i <= k < |r| :: r[k] == frames[k]
      invariant host.trace == old(host.trace) + DetectCalls(paths[..i])
    {
      var results := detect(paths[i]);
      host.trace := host.trace + [TextDetected(paths[i])];
      assert paths[..i + 1] == paths[..i] + [paths[i]];
      DetectCallsAppend(paths[..i], paths[i]);
      if results != [] {
        r := r[i := r[i].(results := results)];
      }
    }
    assert paths[..|paths|] == paths;
  }

  /** `Video(video_id, frame_rate, frames)`: raises when two frame paths
      coincide, otherwise a fresh Video with its derived paths. */
  method NewVideo(root: Path, videoId: string, frameRate: int, frames: seq<Frame>) returns (r: Result<Video>)
    ensures Construct(root, videoId, frameRate, frames).Failure? ==> r == Failure(DuplicateFramePaths)
    ensures Construct(root, videoId, frameRate, frames).Success? ==>
              && r.Success? && fresh(r.value) && r.value.Valid() && r.value.PlacedUnder(root)
              && r.value.Persisted() == Record(videoId, frameRate, frames) && r.value.lenFrames == None
  {
    if frames != [] {
      var paths := FramePaths(FramesDir(root, videoId), frames);
      UniquePathsIffDistinctNames(FramesDir(root, videoId), frames);
      if |ToSet(paths)| != |paths| {
        return Failure(DuplicateFramePaths);
      }
    }
    var v := new Video(root, videoId, frameRate, frames);
    r := Success(v);
  }

  /** `Video.from_json(video_id)`: reads the record file and rebuilds the
      Video, paths recomputed under the current root. */
  method FromJson(root: Path, videoId: string, host: Host) returns (r: Result<Video>)
    ensures Load(root, videoId, host.records).Failure? ==> r == Failure(Load(root, videoId, host.records).error)
    ensures Load(root, videoId, host.records).Success? ==>
              && r.Success? && fresh(r.value) && r.value.Valid() && r.value.PlacedUnder(root)
              && r.value.Persisted() == Load(root, videoId, host.records).value && r.value.lenFrames == None
  {
    var json := JsonFile(root, videoId);
    if json !in host.records {
      return Failure(FileNotFound(json));
    }
    match host.records[json]
    case NotJson =>
      r := Failure(JsonDecode(json));
    case Rejected =>
      r := Failure(Serde);
    case Parsed(rec) =>
      var made := NewVideo(root, rec.videoId, rec.frameRate, rec.frames);
      if made.Failure? {
        r := Failure(Serde);
      } else {
        r := made;
      }
  }
}
