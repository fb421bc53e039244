/** The machine the pipeline runs on: its files, and the log of calls the
    program makes to the outside world (downloads, image writes, text
    detection, record writes, playlist page requests). */
module World {
  import opened Base
  import opened Records

  /** An encoded image buffer, as the decoder yields it and `imwrite` stores it. */
  type Image = seq<bv8>

  /** A key file: a JSON object of strings, or text `json.loads` rejects. */
  datatype KeyFile = KeyJson(entries: map<string, string>) | Malformed

  /** One `playlistItems().list(...)` request. */
  datatype PageRequest = PageRequest(playlistId: string, maxResults: int, pageToken: Option<string>)

  datatype Event =
    | DownloadRequested(path: Path)
    | ImageWritten(path: Path)
    | TextDetected(path: Path)
    | RecordWritten(path: Path)
    | PageRequested(request: PageRequest)

  /** A snapshot of the host: which plain files exist (downloaded videos),
      the written frame images, the video records, the key files, and the
      calls made so far. */
  datatype State = State(
    files: set<Path>,
    images: map<Path, Image>,
    records: map<Path, Stored>,
    keyFiles: map<Path, KeyFile>,
    trace: seq<Event>)

  class Host {
    var files: set<Path>
    var images: map<Path, Image>
    var records: map<Path, Stored>
    var keyFiles: map<Path, KeyFile>
    var trace: seq<Event>

    constructor (s: State)
      ensures Snapshot() == s
    {
      files, images, records, keyFiles, trace := s.files, s.images, s.records, s.keyFiles, s.trace;
    }

    function Snapshot(): (s: State)
      reads this
    {
      State(files, images, records, keyFiles, trace)
    }
  }

  /** One image-write call per path, in order. */
  function ImageWrites(paths: seq<Path>): (r: seq<Event>)
  {
    seq(|paths|, i requires 0 <= i < |paths| => ImageWritten(paths[i]))
  }

  /** One detection call per path, in order. */
  function DetectCalls(paths: seq<Path>): (r: seq<Event>)
  {
    seq(|paths|, i requires 0 <= i < |paths| => TextDetected(paths[i]))
  }

  /** One page request call per request, in order. */
  function PageCalls(requests: seq<PageRequest>): (r: seq<Event>)
  {
    seq(|requests|, i requires 0 <= i < |requests| => PageRequested(requests[i]))
  }

  lemma DetectCallsAppend(paths: seq<Path>, p: Path)
    ensures DetectCalls(paths + [p]) == DetectCalls(paths) + [TextDetected(p)]
  {
  }

  lemma PageCallsAppend(requests: seq<PageRequest>, q: PageRequest)
    ensures PageCalls(requests + [q]) == PageCalls(requests) + [PageRequested(q)]
  {
  }
}
