/** The persisted shape of a video: `Frame` and the three fields of `Video`
    that the serialiser writes (`video_id`, `frame_rate`, `frames`). The two
    path fields are marked `skip` in the source and never reach the record. */
module Records {
  import opened Ocr

  datatype Frame = Frame(fileName: string, results: seq<OcrResult>)

  datatype Record = Record(videoId: string, frameRate: int, frames: seq<Frame>)

  /** What a record file holds: a record the serialiser can rebuild; JSON it
      cannot rebuild a Video from (a missing `video_id`, a wrongly typed value);
      or text that is not JSON at all, which `json.loads` rejects before the
      serialiser sees it. */
  datatype Stored = Parsed(record: Record) | Rejected | NotJson
}
