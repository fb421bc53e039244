/** API-key lookup of video_ocr/__init__.py: where the key file lives
    (`user_dir`, `key_path`), reading it (`load_keys`), and the priority chain
    of `get_key`. The environment, the home directory and the key files are
    parameters. */
module Keys {
  import opened Base
  import opened World

  const UserPathVar: string := "VIDEO_OCR_USER_PATH"
  const KeyFileName: string := ".video-ocr.json"
  const ApiKeyName: string := "YOUTUBE_API_KEY"

  /** `user_dir()`: the directory named by `VIDEO_OCR_USER_PATH` when that
      variable is set to something non-empty, the home directory otherwise. */
  function UserDir(env: Env, home: Path): (dir: Path)
    ensures UserPathVar in env && env[UserPathVar] != "" ==> dir == env[UserPathVar]
    ensures UserPathVar !in env || env[UserPathVar] == "" ==> dir == home
  {
    var configured := Lookup(env, UserPathVar);
    if Truthy(configured) then configured.value else home
  }

  /** `key_path()`. */
  function KeyPath(env: Env, home: Path): (path: Path)
  {
    Join(UserDir(env, home), KeyFileName)
  }

  /** Where the key file is: in the home directory by default, in the
      configured directory when the variable is set. */
  lemma KeyPathLocation(env: Env, home: Path)
    ensures UserPathVar !in env ==> KeyPath(env, home) == home + "/.video-ocr.json"
    ensures UserPathVar in env && env[UserPathVar] != "" ==>
              KeyPath(env, home) == env[UserPathVar] + "/.video-ocr.json"
    ensures UserPathVar in env && env[UserPathVar] == "" ==> KeyPath(env, home) == home + "/.video-ocr.json"
  {
  }

  /** `load_keys()` on the file at `path`: no file reads as no keys; a file
      that is not JSON raises. */
  function LoadKeys(keyFiles: map<Path, KeyFile>, path: Path): (r: Result<map<string, string>>)
    ensures r.Failure? <==> Lookup(keyFiles, path) == Some(Malformed)
    ensures r.Failure? ==> r.error == JsonDecode(path)
    ensures r.Success? ==> (path !in keyFiles && r.value == map[]) || (path in keyFiles && keyFiles[path] == KeyJson(r.value))
  {
    match Lookup<Path, KeyFile>(keyFiles, path)
    case None => Success(map[])
    case Some(Malformed) => Failure(JsonDecode(path))
    case Some(KeyJson(entries)) => Success(entries)
  }

  /** `get_key(explicit_key, env_var)`: the key stored under the alias
      `explicitKey`; failing that, the non-empty value of the environment
      variable `envVar`; failing that, nothing. */
  function GetKey(explicitKey: Option<string>, envVar: Option<string>, env: Env, home: Path,
                  keyFiles: map<Path, KeyFile>): (r: Result<Option<string>>)
    ensures var loaded := LoadKeys(keyFiles, KeyPath(env, home));
            && (r.Failure? <==> loaded.Failure?)
            && (r.Failure? ==> r.error == loaded.error)
    // the stored alias wins over the environment
    ensures var loaded := LoadKeys(keyFiles, KeyPath(env, home));
            loaded.Success? && explicitKey.Some? && explicitKey.value in loaded.value ==>
              r == Success(Some(loaded.value[explicitKey.value]))
    // a value comes from one of the two sources; an empty variable counts as unset
    ensures var loaded := LoadKeys(keyFiles, KeyPath(env, home));
            r.Success? && r.value.Some? ==>
              || (explicitKey.Some? && explicitKey.value in loaded.value && loaded.value[explicitKey.value] == r.value.value)
              || (envVar.Some? && envVar.value in env && env[envVar.value] == r.value.value && r.value.value != "")
    ensures var loaded := LoadKeys(keyFiles, KeyPath(env, home));
            r == Success(None) <==>
              && loaded.Success?
              && (explicitKey.None? || explicitKey.value !in loaded.value)
              && (envVar.None? || envVar.value == "" || envVar.value !in env || env[envVar.value] == "")
  {
    match LoadKeys(keyFiles, KeyPath(env, home))
    case Failure(e) => Failure(e)
    case Success(stored) =>
      if explicitKey.Some? && explicitKey.value in stored then Success(Some(stored[explicitKey.value]))
      else if envVar.Some? && envVar.value != "" && Truthy(Lookup(env, envVar.value)) then Success(Lookup(env, envVar.value))
      else Success(None)
  }

  /** Without a key file, lookup falls through to the environment variable. */
  lemma NoKeyFileUsesEnvironment(explicitKey: Option<string>, name: string, env: Env, home: Path,
                                 keyFiles: map<Path, KeyFile>)
    requires KeyPath(env, home) !in keyFiles
    requires name != "" && name in env && env[name] != ""
    ensures GetKey(explicitKey, Some(name), env, home, keyFiles) == Success(Some(env[name]))
  {
  }
}
