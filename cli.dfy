/** `keys_set` of video_ocr/cli.py: store an API key in the key file, a
    read-modify-write of the file's string map. */
module Cli {
  import opened Base
  import opened World
  import opened Keys

  const NoteKey: string := "// Note"
  const NoteText: string := "This file stores secret API credentials. Do not share!"

  /** The map written to a key file that does not exist yet, and used in
      place of a file that is not JSON. */
  function DefaultKeys(): (m: map<string, string>)
    ensures m.Keys == {NoteKey} && m[NoteKey] == NoteText
  {
    map[NoteKey := NoteText]
  }

  /** The map `keys_set` starts from: the file's entries, or the default
      when there is no file or it does not parse. */
  function CurrentKeys(file: Option<KeyFile>): map<string, string>
  {
    if file.Some? && file.value.KeyJson? then file.value.entries else DefaultKeys()
  }

  /** The map `keys_set(value)` leaves in the key file: every entry it
      started from, with `YOUTUBE_API_KEY` set to `value`. */
  function StoredAfterSet(file: Option<KeyFile>, value: string): (m: map<string, string>)
    ensures m.Keys == CurrentKeys(file).Keys + {ApiKeyName}
    ensures m[ApiKeyName] == value
    ensures forall k | k in CurrentKeys(file) && k != ApiKeyName :: m[k] == CurrentKeys(file)[k]
  {
    CurrentKeys(file)[ApiKeyName := value]
  }

  /** `keys_set(value)`: creates the file with the default map when it is
      missing, reads it (falling back to the default when it is not JSON),
      sets the key and writes the map back. */
  method KeysSet(value: string, env: Env, home: Path, host: Host)
    modifies host`keyFiles
    ensures var path := KeyPath(env, home);
            host.keyFiles == old(host.keyFiles)[path := KeyJson(StoredAfterSet(Lookup(old(host.keyFiles), path), value))]
  {
    var path := KeyPath(env, home);
    if path !in host.keyFiles {
      host.keyFiles := host.keyFiles[path := KeyJson(DefaultKeys())];
    }
    var current: map<string, string>;
    match host.keyFiles[path] {
      case KeyJson(entries) =>
        current := entries;
      case Malformed =>
        current := DefaultKeys();
    }
    current := current[ApiKeyName := value];
    host.keyFiles := host.keyFiles[path := KeyJson(current)];
  }

  /** A missing file, and a file that is not JSON, both end up holding the
      note and the key, and nothing else. */
  lemma SetOnMissingOrMalformed(value: string)
    ensures StoredAfterSet(None, value) == map[NoteKey := NoteText, ApiKeyName := value]
    ensures StoredAfterSet(Some(Malformed), value) == map[NoteKey := NoteText, ApiKeyName := value]
  {
  }

  /** Setting the same value twice stores the same map as setting it once. */
  lemma SetIdempotent(file: Option<KeyFile>, value: string)
    ensures StoredAfterSet(Some(KeyJson(StoredAfterSet(file, value))), value) == StoredAfterSet(file, value)
  {
  }

  /** After `keys_set(value)`, `get_key("YOUTUBE_API_KEY")` returns `value`,
      whatever the environment holds. */
  lemma SetThenGetKey(value: string, envVar: Option<string>, env: Env, home: Path, keyFiles: map<Path, KeyFile>)
    ensures var path := KeyPath(env, home);
            var after := keyFiles[path := KeyJson(StoredAfterSet(Lookup(keyFiles, path), value))];
            GetKey(Some(ApiKeyName), envVar, env, home, after) == Success(Some(value))
  {
  }
}
