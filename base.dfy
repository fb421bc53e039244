/** Vocabulary shared by every part of the model: optional values, results,
    the errors the program raises, paths, environments, and two facts about
    sequences (pairwise distinctness and the set of elements). */
module Base {

  datatype Option<T> = None | Some(value: T)

  /** The outcome of an operation that either returns a value or raises. */
  datatype Result<T> = Success(value: T) | Failure(error: Error)

  /** The outcome of an operation that returns nothing or raises. */
  datatype Outcome = Pass | Fail(error: Error)

  /** The exceptions the modelled code raises or lets through. */
  datatype Error =
    | FileNotFound(path: Path)      // `open` on a record file that does not exist
    | Serde                         // the serialiser could not rebuild a Video
    | DuplicateFramePaths           // "frame paths must be unique."
    | ZeroDivision                  // `index % frame_rate` with a frame rate of 0
    | DownloadFailed(videoId: string)
    | JsonDecode(path: Path)        // `json.loads` on a key file or record file that is not JSON
    | MissingApiKey                 // "YOUTUBE_API_KEY is not set"
    | ItemsNotFetched               // `map` over the `None` item list
    | NoContentDetails              // `.get` on the `None` of a missing "contentDetails"
    | PagesUnbounded                // the model's page budget ran out (see README)

  /** A path, as the text `str(path)` gives it. */
  type Path = string

  /** `p / name` for a one-component name. */
  function Join(p: Path, name: string): Path
  {
    p + "/" + name
  }

  lemma JoinInjective(p: Path, a: string, b: string)
    ensures Join(p, a) == Join(p, b) <==> a == b
  {
    if Join(p, a) == Join(p, b) {
      var k := |p| + 1;
      assert a == Join(p, a)[k..];
      assert b == Join(p, b)[k..];
    }
  }

  /** The process environment (`os.environ`). */
  type Env = map<string, string>

  /** `d.get(key)`: the value under `key`, if any (`os.environ.get`, or a
      file that may not exist). */
  function Lookup<K, V>(m: map<K, V>, key: K): (r: Option<V>)
    ensures r.Some? <==> key in m
    ensures r.Some? ==> r.value == m[key]
  {
    if key in m then Some(m[key]) else None
  }

  /** Python truthiness of an optional string: present and not empty. */
  predicate Truthy(s: Option<string>)
  {
    s.Some? && s.value != ""
  }

  /** No element occurs twice. */
  predicate Distinct<T(==)>(s: seq<T>)
  {
    forall i, j | 0 <= i < j < |s| :: s[i] != s[j]
  }

  /** `set(s)`. */
  function ToSet<T>(s: seq<T>): (r: set<T>)
    ensures forall x | x in r :: x in s
    ensures forall i | 0 <= i < |s| :: s[i] in r
  {
    if s == [] then {} else {s[0]} + ToSet(s[1..])
  }

  /** A sequence is distinct exactly when its head is not in its tail and its
      tail is distinct. */
  lemma DistinctCons<T>(s: seq<T>)
    requires s != []
    ensures Distinct(s) <==> s[0] !in s[1..] && Distinct(s[1..])
  {
  }

  /** `len(set(s)) == len(s)` holds exactly when no element occurs twice. */
  lemma {:induction false} ToSetSize<T>(s: seq<T>)
    ensures |ToSet(s)| <= |s|
    ensures |ToSet(s)| == |s| <==> Distinct(s)
  {
    if s != [] {
      var t := s[1..];
      ToSetSize(t);
      DistinctCons(s);
      var rest := ToSet(t);
      assert ToSet(s) == {s[0]} + rest;
      if s[0] in t {
        var j :| 0 <= j < |t| && t[j] == s[0];
        assert s[0] in rest;
        assert ToSet(s) == rest;
      } else {
        assert s[0] !in rest;
        assert |ToSet(s)| == |rest| + 1;
      }
    }
  }

  lemma ToSetAppend<T>(s: seq<T>, x: T)
    ensures ToSet(s + [x]) == ToSet(s) + {x}
  {
    var t := s + [x];
    assert forall i | 0 <= i < |s| :: t[i] == s[i];
    assert t[|s|] == x;
  }
}
