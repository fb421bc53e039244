# video-ocr in Dafny

A model of the processing core of video-ocr. The program does four things:

- It downloads a YouTube video.
- It samples every `frame_rate`-th decoded frame into PNG images.
- It runs text detection on each image.
- It keeps a per-video JSON record of the frames and their results.

Around this sit three smaller parts: API-key lookup and storage, and paging through a playlist.

The model has these modules:

- `Base`: results, errors, paths, distinctness.
- `Decimal`: `str` of a natural number.
- `Ocr` and `Records`: the persisted values.
- `World`: the host, meaning the files, images, records, key files and a log of calls to the outside world.
- `Videos`: the `Video` entity, its paths, frame sampling, the OCR pass, and loading and saving records.
- `Execute`: the driver of `execute.py`.
- `Keys`: `user_dir`, `key_path`, `load_keys` and `get_key`.
- `Cli`: `keys set`.
- `Playlists`: `get_playlist` and `to_video_ids`.

The code that changes state is modelled as methods on two classes:

- `Videos.Video`, whose fields `frames` and `lenFrames` the stages update.
- `World.Host`, the filesystem together with the call log.

Each method is proved equal to a pure function. For example, `Execute.SaveFrames` ends with `host.Snapshot() == SaveFramesRun(...).after`. The properties are then proved about those functions.

The outside world enters as parameters:

- the data directory (`root`);
- the decoder, a function from the video path to its frames;
- the text detector, a function from the image path to its results;
- whether a download delivers the file;
- the environment and the home directory;
- the playlist API, a function from request to page.

Three behaviours of the code are worth stating outright:

- A missing record is not recovered from. `load_or_create_video` catches only the serialiser's error (`video_ocr/execute.py:12-16`), so a missing record file raises from `open` (`video_ocr/video.py:139`). A record file that is not JSON is not recovered from either: `from_json` passes the text to `json.loads` before the serialiser rebuilds anything, so the JSON decoding error is raised outside the serialiser's error. `Execute.LoadedOrFresh` and `Execute.ExecuteSaveResultsRun` let `FileNotFound` and `JsonDecode` through.
- `save_ocr_results` has no already-has-results skip (`video_ocr/execute.py:32-35`). `Execute.SaveOcrRun` always makes one detection call per frame and always writes the record. A rerun leaves the same records only because the detector is a function (`Execute.ExecuteSaveResultsRerun`).
- A missing video file is not an error. `cv2.VideoCapture` on a missing file is not opened, so the loop never runs and the frame list becomes empty. `Videos.Decoded` yields no frames in that case.

Three decisions cover what the code leaves open:

- A stored record whose frames repeat a file name makes `__post_init__` raise `ValueError` while the serialiser rebuilds the Video. The model takes the serialiser to report that failure as its own error, as older pyserde releases do, and so treats such a record like JSON the serialiser cannot rebuild: `Videos.Load` gives `Serde`, and `load_or_create_video` falls back to a fresh Video.
- A frame rate of 0 raises `ZeroDivisionError` at the first decoded frame, before anything is written. With no decoded frames it raises nothing. Python's `%` and Dafny's `%` differ for negative divisors, but `index % rate == 0` holds in both exactly when `rate` divides `index`. The model therefore uses Dafny's `%` for every non-zero rate.
- Paths are strings, and `p / name` is `p + "/" + name`.

## Model

| member | source | states |
|---|---|---|
| `Videos.PathLayout` | video_ocr/video.py:34-39 | the video file, frames directory and record are `root/videos/<id>/video.mp4`, `.../frame` and `.../video.json`, three different paths |
| `Videos.FramePaths` | video_ocr/video.py:74-76 | one path per frame, same length and order, element i is `frames_dir / frames[i].file_name` |
| `Base.ToSetSize` | video_ocr/video.py:47 | `len(set(s)) <= len(s)`, with equality exactly when no element repeats |
| `Videos.UniquePathsIffDistinctNames` | video_ocr/video.py:44-48 | the construction check on frame paths passes exactly when the frame file names are pairwise different |
| `Videos.Construct` | video_ocr/video.py:43-48 | a frame list is accepted iff its names are distinct; the error is the duplicate-paths error; an accepted Video holds the given fields |
| `Videos.DuplicateNamesRejected` | video_ocr/video.py:44-48 | two frames with the same file name make construction fail |
| `Videos.NewVideo` | video_ocr/video.py:34-48 | the constructor call fails on duplicate names; otherwise it gives a fresh Video with the derived paths, the given fields and no `len_frames` |
| `Videos.Video.constructor` | video_ocr/video.py:34-39 | a constructed Video has unique frame names and the paths derived from the data root and its identifier |
| `Videos.FrameNameInjective` | video_ocr/video.py:93 | `f"{prefix}{i}.png"` names different indices differently |
| `Videos.SampledIndicesExact` | video_ocr/video.py:85-99 | sampling keeps exactly the decode indices below the frame count that the frame rate divides |
| `Videos.SampledIndicesIncreasing` | video_ocr/video.py:85-99 | the kept indices are strictly increasing and below the frame count |
| `Videos.SampledCount` | video_ocr/video.py:85-99 | with rate N > 0, K decoded frames yield ceil(K / N) kept frames |
| `Videos.ExtractedFrames` | video_ocr/video.py:92-97 | extracted frame j is named `prefix + str(idx_j) + ".png"` for the j-th kept index and has no results |
| `Videos.ExtractedNamesDistinct` | video_ocr/video.py:92-97 | the extracted frames pass the uniqueness check |
| `Videos.FrameImagesValues` | video_ocr/video.py:92-96 | every kept index i is written at its frame path with decoded frame i |
| `Videos.FrameImagesKeys` | video_ocr/video.py:92-96 | no path other than the extracted frames' paths is written |
| `Videos.SampleFrames` | video_ocr/video.py:79-99 | the loop gives the extracted frames, writes exactly their images and makes one write call per frame in order; a rate of 0 with a non-empty stream raises before any write |
| `Videos.Video.ToFrames` | video_ocr/video.py:78-108 | `frames` is replaced by the extracted list (never appended to), `len_frames` and the returned count are its length, names stay unique, and a missing video file gives no frames |
| `Videos.RecognizedFrames` | video_ocr/video.py:114-118 | the OCR pass keeps every file name; frame i takes the detector's output when it is non-empty and keeps its old results otherwise |
| `Videos.RecognizedIdempotent` | video_ocr/video.py:110-123 | with the same detector, a second OCR pass changes nothing |
| `Videos.RecognizedFindsText` | video_ocr/video.py:114-118 | if the detector finds text in some frame, that frame carries results after the pass |
| `Videos.DetectFrames` | video_ocr/video.py:114-118 | the loop makes one detection call per frame path in order and yields the recognised frames |
| `Videos.Video.GetFramesOcr` | video_ocr/video.py:110-123 | `frames` becomes the recognised frames, names stay unique, and one detection call per frame is logged |
| `Videos.Video.DownloadVideo` | video_ocr/video.py:55-68 | a download is requested for the video path; when delivered the file exists, otherwise the download error is raised |
| `Videos.Video.ToJson` | video_ocr/video.py:125-133 | the record file for the identifier is overwritten with the three persisted fields |
| `Videos.Load` | video_ocr/video.py:135-141 | a missing record raises `FileNotFound`, and only then; text that is not JSON raises `JsonDecode`, and only then; JSON the serialiser cannot rebuild, or a record with duplicate names, raises the serialiser's error, and only then; otherwise the stored record is returned unchanged |
| `Videos.FromJson` | video_ocr/video.py:135-141 | the method fails as `Load` does, or gives a fresh Video with the loaded fields and the paths recomputed under the current root |
| `Videos.SaveThenLoad` | video_ocr/video.py:125-141 | what `to_json` writes, `from_json` reads back unchanged |
| `Execute.LoadedOrFresh` | video_ocr/execute.py:11-18 | `load=False` gives `Video(video_id)` with rate 100 and no frames; with `load=True`, it fails exactly when the record is missing (`FileNotFound`) or is not JSON (`JsonDecode`); a valid stored record is used, and anything else falls back to a fresh Video |
| `Execute.LoadOrCreate` | video_ocr/execute.py:9-23 | the download is requested exactly when the video file is missing, at most once; it succeeds iff the file was there or gets delivered; records and images are untouched |
| `Execute.LoadOrCreateVideo` | video_ocr/execute.py:9-23 | the method's host state and returned Video are those of `LoadOrCreate`, and the returned Video has no `len_frames` yet |
| `Execute.SaveFramesRun` | video_ocr/execute.py:26-30 | a Video with frames is left alone; otherwise the Video gets exactly the extracted frames (ceil(K / rate) of them), the decoded images are added at their frame paths, the trace is the image writes then the record write, and the record holds the new Video; it fails only with rate 0 and a non-empty stream, and then changes nothing |
| `Execute.SaveFrames` | video_ocr/execute.py:26-30 | the method's host state, outcome and Video are those of `SaveFramesRun`; `len_frames` becomes the number of frames when extraction completes, and when the Video already had frames or extraction raises, its frames and `len_frames` are unchanged |
| `Execute.SaveFramesPersistsOnceLast` | video_ocr/execute.py:28-30 | extraction writes the record exactly once, as its last call |
| `Execute.SaveOcrRun` | video_ocr/execute.py:32-35 | never skipped and never failing: the Video's frames become the recognised frames, with names kept; the trace is one detection call per frame, then one record write, and files, images and key files are unchanged |
| `Execute.SaveOcrResults` | video_ocr/execute.py:32-35 | the method's host state and Video are those of `SaveOcrRun` |
| `Execute.SaveOcrPersistsOnceLast` | video_ocr/execute.py:32-35 | the OCR stage makes one call per frame, even when results already exist, and writes the record exactly once, last |
| `Execute.ExecuteSaveFramesRun` | video_ocr/execute.py:40-41 | it fails iff the video file is missing and not delivered; otherwise the order is download (if missing), image writes, record write, and the stored record holds the extracted frames; key files are unchanged |
| `Execute.ExecuteSaveFrames` | video_ocr/execute.py:40-41 | the method's host state and outcome are those of `ExecuteSaveFramesRun` |
| `Execute.ExecuteSaveFramesStores` | video_ocr/execute.py:40-41 | a successful run leaves the video file in place and the extracted frames in the record for the identifier |
| `Execute.ExecuteSaveFramesWithFile` | video_ocr/execute.py:20-30 | with the video file present nothing is downloaded: extraction, then the record write |
| `Execute.ExecuteSaveFramesRerun` | video_ocr/execute.py:40-41 | a second run gives the same Video and the same files, images and records |
| `Execute.ExecuteSaveResultsRun` | video_ocr/execute.py:44-45 | a missing record or one that is not JSON raises with no other effect; otherwise it fails iff the video file is missing and not delivered, and then only the download request is logged; on success the video file is present, images and key files are unchanged, and in order it downloads (if missing), makes the detection calls and writes the recognised record |
| `Execute.ExecuteSaveResults` | video_ocr/execute.py:44-45 | the method's host state and outcome are those of `ExecuteSaveResultsRun` |
| `Execute.ExecuteSaveResultsOnStored` | video_ocr/execute.py:44-45 | with a valid stored record and its video file, the run recognises that record's frames and stores the result |
| `Execute.ExecuteSaveResultsRerun` | video_ocr/execute.py:44-45 | a second run with the same detector gives the same result, files, images and records |
| `Execute.FramesThenResultsFindText` | tests/test_video_ocr.py:32-39 | extraction then OCR leaves a frame with results in the stored record, when the detector finds text in a sampled frame |
| `Keys.UserDir` | video_ocr/__init__.py:36-44 | `VIDEO_OCR_USER_PATH` when it is set and non-empty, the home directory otherwise |
| `Keys.KeyPathLocation` | video_ocr/__init__.py:32-33 | the key file is `.video-ocr.json` in the home directory, or in the configured directory |
| `Keys.LoadKeys` | video_ocr/__init__.py:24-29 | no file gives the empty map; a file that is not JSON raises; otherwise the file's map |
| `Keys.GetKey` | video_ocr/__init__.py:6-21 | a stored alias wins over the environment; a value comes from the alias or from a non-empty variable; nothing is returned exactly when neither applies; key-file errors propagate |
| `Keys.NoKeyFileUsesEnvironment` | video_ocr/__init__.py:13-19 | without a key file, lookup returns the environment variable's value |
| `Cli.DefaultKeys` | video_ocr/cli.py:33 | the default map holds only the note |
| `Cli.StoredAfterSet` | video_ocr/cli.py:36-42 | the stored map is the starting map plus `YOUTUBE_API_KEY = value`, with every other entry kept |
| `Cli.KeysSet` | video_ocr/cli.py:29-43 | only the key file at `key_path()` changes, and it holds `StoredAfterSet` of its old contents |
| `Cli.SetOnMissingOrMalformed` | video_ocr/cli.py:33-41 | a missing or non-JSON file ends up holding exactly the note and the key |
| `Cli.SetIdempotent` | video_ocr/cli.py:42-43 | setting the same value twice stores the same map as setting it once |
| `Cli.SetThenGetKey` | tests/test_key.py:35-40 | after `keys set v`, `get_key("YOUTUBE_API_KEY")` returns `v` |
| `Playlists.FetchRequests` | video_ocr/playlist.py:38-54 | the first request has no token; each later request carries the previous answer's non-empty next-page token; every request is for the same playlist and page size |
| `Playlists.FetchStops` | video_ocr/playlist.py:52-58 | fetching stops right after the first answer whose next-page token is absent or empty |
| `Playlists.FetchItems` | video_ocr/playlist.py:40-52 | the gathered items are the concatenation of every fetched page's items, in fetch order |
| `Playlists.FetchFuelMonotone` | video_ocr/playlist.py:42-58 | a fetch that completes within a request budget gives the same result under any larger budget |
| `Playlists.DefaultRequests` | video_ocr/playlist.py:36-49 | `get_playlist()` with its defaults first asks for the first page, and every request asks for 500 items per page |
| `Playlists.FetchPages` | video_ocr/playlist.py:38-58 | the loop makes exactly the requests of `Fetch`, in order, and gathers its items |
| `Playlists.Playlist.GetPlaylist` | video_ocr/playlist.py:21-61 | without a non-empty `YOUTUBE_API_KEY` it fails before any request; otherwise `items` is set to the returned list; the page size defaults to 500 |
| `Playlists.Playlist.constructor` | video_ocr/playlist.py:14-18 | a new Playlist holds the given identifier and items, which default to `"UUcWWwmgV5dLmqUJCtAZqHfw"` and no items |
| `Playlists.IdsOf` | video_ocr/playlist.py:63-64 | order and length are preserved, element i is `items[i]["contentDetails"]["videoId"]`, and an item without `contentDetails` raises |
| `Playlists.IdsOfAppend` | video_ocr/playlist.py:63-64 | the identifiers of joined item lists are the joined identifiers |
| `Playlists.Playlist.VideoIds` | video_ocr/playlist.py:63-64 | fails before any completed fetch; otherwise the identifiers of `items`, in order |

## Left out

- The text detector in `video_ocr/ocr.py` calls the platform's vision framework. It is a function parameter (`Ocr.Detector`). The model assumes it gives the same result for the same image path, even after the image at that path is rewritten, and that it never fails. It leaves out the orientation check and the conversion of bounding boxes.
- Videos.Video.DownloadVideo: the network transport is not modelled. Whether the download delivers the file is a parameter. Only the default resolution (`"worst"`) is modelled; `"best"` and the unbound `stream` for any other value are left out. `get_resolutions` is left out too.
- `cv2` decoding is a function from the video path to a sequence of byte images (`Videos.Decoder`). A read error in the middle of the stream is not modelled, and neither is a file that exists but cannot be opened. `imwrite` always succeeds. `destroyAllWindows` has no effect.
- Only the fields the serialiser writes are modelled, and a record file is one of three cases: a record it can rebuild, JSON it cannot rebuild, or text that is not JSON. The JSON text itself is not modelled.
- Directory creation (`mkdir` in `__post_init__`, `to_json`, `user_dir` and `keys set`) is assumed always to succeed and has no modelled effect.
- `Frame` objects are values. `get_frames_ocr` mutates Frame objects that other lists may share; that aliasing is not captured.
- Logging (`video_ocr/config.py`) is not part of this model. The data directory is the `root` parameter rather than a mutable module global.
- The `__main__` blocks are left out: the timing benchmarks with thread and process pools (`video_ocr/execute.py:50-102`, which is about concurrency) and the playlist JSON demo (`video_ocr/playlist.py:67-85`).
- The click wiring of `video_ocr/cli.py` is left out: the groups, the `key path` command (its value is `Keys.KeyPath`) and `write_playlist`, which calls a `to_json(Path)` the class does not define.
- A key file that is valid JSON but not an object of strings is not modelled.
- Playlists.Playlist.GetPlaylist: the loop is given a request budget (`fuel`), because it terminates only when the server stops sending next-page tokens. If the budget runs out, the model reports `PagesUnbounded` where the program would keep requesting. `FetchFuelMonotone` shows that the budget does not change the result of a fetch that completes.
- Playlists.Playlist.GetPlaylist: the server always answers. An error raised by `request.execute()` (`video_ocr/playlist.py:50`) is not modelled; in the program it escapes `get_playlist` before `items` is set, so `items` keeps its old value.
- Playlists.Playlist.GetPlaylist: building the API client is left out, and so is a response without an `items` key (a `KeyError`). Items are reduced to their `contentDetails.videoId`.
- Videos.Load: the model takes the older pyserde behaviour, where the `ValueError` raised by `__post_init__` (`video_ocr/video.py:48`) for a stored record with repeated frame names is wrapped as `SerdeError`, so `load_or_create_video` falls back to a fresh Video. Recent pyserde re-raises an exception from the class's own constructor unwrapped; with such a release the `ValueError` escapes `load_or_create_video` and `execute_save_results` raises. The program does not pin a release.
- Paths are plain strings joined with `/`. Normalisation and absolute components are not modelled.
