/** The download unit and the metadata store (`store_metadata` and
    `download_audio`, Download_Audio.py lines 91-147) over a modelled
    filesystem and an append-only `metadata` table. */
module Store {
  import opened Common
  import opened Paths

  /** A metadata dict: key to string value, `None` for Python's `None`. */
  type Metadata = map<string, Option<string>>

  /** The columns of the `metadata` table, in the order it declares them. */
  const Columns: seq<string> :=
    ["source", "id", "species", "common_name", "location", "date",
     "recordist", "country", "license", "url", "filename"]

  /** One row of the `metadata` table; `None` is SQL NULL. */
  datatype Row = Row(
    source: Option<string>, id: Option<string>, species: Option<string>,
    commonName: Option<string>, location: Option<string>, date: Option<string>,
    recordist: Option<string>, country: Option<string>, license: Option<string>,
    url: Option<string>, filename: Option<string>)
  {
    /** The row's values in column order. */
    function Values(): seq<Option<string>>
    {
      [source, id, species, commonName, location, date, recordist, country, license, url, filename]
    }
  }

  /** `meta.get(key)`. */
  function Get(meta: Metadata, key: string): Option<string>
  {
    if key in meta then meta[key] else None
  }

  /** The eleven values `store_metadata` binds. */
  function RowOf(meta: Metadata): Row
  {
    Row(Get(meta, "source"), Get(meta, "id"), Get(meta, "species"), Get(meta, "common_name"),
        Get(meta, "location"), Get(meta, "date"), Get(meta, "recordist"), Get(meta, "country"),
        Get(meta, "license"), Get(meta, "url"), Get(meta, "filename"))
  }

  /** Positional binding follows the schema: the i-th value of the row is
      `meta.get` of the i-th declared column, NULL when the key is absent. */
  lemma RowOfColumns(meta: Metadata)
    ensures |RowOf(meta).Values()| == |Columns|
    ensures forall i :: 0 <= i < |Columns| ==> RowOf(meta).Values()[i] == Get(meta, Columns[i])
  {
  }

  /** What a file holds: audio bytes, or the sidecar JSON of a metadata dict. */
  datatype FileContent = Blob(data: Bytes) | Sidecar(meta: Metadata)

  /** The observable state: the files, the table rows, and the URLs fetched
      so far (a record of network use, not something the program keeps). */
  datatype World = World(files: map<string, FileContent>, rows: seq<Row>, fetched: seq<string>)

  /** The outside world the download unit talks to: the body the HTTP GET
      of each URL returns (a URL missing from `responses` fails: network
      error or error status); the WAV export of the bodies pydub's
      `from_mp3` and `from_file` can decode (a body missing from the map
      makes the decoder raise); and the paths a file cannot be written at. */
  datatype Env = Env(
    responses: map<string, Bytes>,
    mp3Decoded: map<Bytes, Bytes>,
    anyDecoded: map<Bytes, Bytes>,
    unwritable: set<string>)
  {
    function Fetch(url: string): Option<Bytes>
    {
      if url in responses then Some(responses[url]) else None
    }

    function DecodeMp3(body: Bytes): Option<Bytes>
    {
      if body in mp3Decoded then Some(mp3Decoded[body]) else None
    }

    function DecodeAny(body: Bytes): Option<Bytes>
    {
      if body in anyDecoded then Some(anyDecoded[body]) else None
    }

    predicate Writable(path: string)
    {
      path !in unwritable
    }
  }

  /** Result of `download_audio`: its return value and the new state. */
  datatype Outcome = Outcome(ok: bool, after: World)

  /** The bytes written at the audio path, or `None` when the audio step
      raises: an `.mp3` URL must decode; any other URL is decoded when
      possible and otherwise kept as raw bytes. */
  function AudioBytes(url: string, body: Bytes, path: string, env: Env): (w: Option<Bytes>)
    ensures w.Some? ==> env.Writable(path)
    ensures EndsWith(url, ".mp3") ==> (w.Some? <==> env.DecodeMp3(body).Some? && env.Writable(path))
    ensures !EndsWith(url, ".mp3") ==> (w.Some? <==> env.Writable(path))
    ensures EndsWith(url, ".mp3") && w.Some? ==> w == env.DecodeMp3(body)
    ensures !EndsWith(url, ".mp3") && env.DecodeAny(body).Some? && w.Some? ==> w == env.DecodeAny(body)
    ensures !EndsWith(url, ".mp3") && env.DecodeAny(body).None? && w.Some? ==> w.value == body
  {
    if EndsWith(url, ".mp3") then
      if env.DecodeMp3(body).Some? && env.Writable(path) then env.DecodeMp3(body) else None
    else if env.DecodeAny(body).Some? && env.Writable(path) then env.DecodeAny(body)
    else if env.Writable(path) then Some(body)
    else None
  }

  /** The effect of `download_audio(folder, filename, url, meta)` on `st`. */
  function Download(st: World, folder: string, filename: string, url: string, meta: Metadata, env: Env): Outcome
  {
    var path := Join(folder, filename);
    var jsonPath := SidecarPath(path);
    if path in st.files then Outcome(true, st)
    else
      var st1 := st.(fetched := st.fetched + [url]);
      match env.Fetch(url)
      case None => Outcome(false, st1)
      case Some(body) =>
        match AudioBytes(url, body, path, env)
        case None => Outcome(false, st1)
        case Some(w) =>
          var st2 := st1.(files := st1.files[path := Blob(w)]);
          if !env.Writable(jsonPath) then Outcome(false, st2)
          else Outcome(true, World(st2.files[jsonPath := Sidecar(meta)], st2.rows + [RowOf(meta)], st2.fetched))
  }

  /** Skip-if-exists: when the audio path is taken, the call succeeds with
      nothing fetched, nothing written and no row added; otherwise it fetches
      the URL exactly once. */
  lemma DownloadSkipsExisting(st: World, folder: string, filename: string, url: string, meta: Metadata, env: Env)
    ensures var o := Download(st, folder, filename, url, meta, env);
      && (Join(folder, filename) in st.files ==> o == Outcome(true, st))
      && (Join(folder, filename) !in st.files ==> o.after.fetched == st.fetched + [url])
  {
  }

  /** The success path: a new audio path, a fetch that succeeds, audio bytes
      written and a writable sidecar give `true`, with the audio file and
      the sidecar holding the metadata written and exactly one row,
      `RowOf(meta)`, appended. */
  lemma DownloadSucceeds(st: World, folder: string, filename: string, url: string, meta: Metadata, env: Env, w: Bytes)
    requires Join(folder, filename) !in st.files && env.Fetch(url).Some?
    requires AudioBytes(url, env.Fetch(url).value, Join(folder, filename), env) == Some(w)
    requires env.Writable(SidecarPath(Join(folder, filename)))
    ensures var o, path := Download(st, folder, filename, url, meta, env), Join(folder, filename);
      && o.ok
      && o.after.files == st.files[path := Blob(w)][SidecarPath(path) := Sidecar(meta)]
      && o.after.rows == st.rows + [RowOf(meta)]
      && o.after.fetched == st.fetched + [url]
  {
  }

  /** A failure before anything is written fails the call with no file
      written and no row added: a failed fetch, or an audio step that
      raises (an `.mp3` body the decoder rejects, or an audio path that
      cannot be written, which AudioBytes reports as `None`). */
  lemma DownloadFailuresWriteNothing(st: World, folder: string, filename: string, url: string, meta: Metadata, env: Env)
    requires Join(folder, filename) !in st.files
    requires env.Fetch(url).None? || AudioBytes(url, env.Fetch(url).value, Join(folder, filename), env).None?
    ensures var o := Download(st, folder, filename, url, meta, env);
      !o.ok && o.after.files == st.files && o.after.rows == st.rows && o.after.fetched == st.fetched + [url]
  {
  }

  /** In particular an unwritable audio path fails the call, whatever the
      URL and the body, and writes nothing. */
  lemma DownloadUnwritableAudio(st: World, folder: string, filename: string, url: string, meta: Metadata, env: Env)
    requires Join(folder, filename) !in st.files && !env.Writable(Join(folder, filename))
    ensures var o := Download(st, folder, filename, url, meta, env);
      !o.ok && o.after.files == st.files && o.after.rows == st.rows
  {
    if env.Fetch(url).Some? {
      assert AudioBytes(url, env.Fetch(url).value, Join(folder, filename), env).None?;
    }
    DownloadFailuresWriteNothing(st, folder, filename, url, meta, env);
  }

  /** A body from a non-`.mp3` URL that the generic decoder rejects is still
      written, verbatim, at the audio path (which the sidecar then overwrites
      only if the two paths coincide). */
  lemma DownloadRawFallback(st: World, folder: string, filename: string, url: string, meta: Metadata, env: Env)
    requires Join(folder, filename) !in st.files && env.Fetch(url).Some? && !EndsWith(url, ".mp3")
    requires env.DecodeAny(env.Fetch(url).value).None? && env.Writable(Join(folder, filename))
    ensures var o, path := Download(st, folder, filename, url, meta, env), Join(folder, filename);
      path in o.after.files &&
      (SidecarPath(path) != path ==> o.after.files[path] == Blob(env.Fetch(url).value))
  {
  }

  /** The table only grows, by this call's row, and only on success; the row
      is added only once the audio file and the sidecar holding the metadata
      are written; `true` means the file existed or the row was added. */
  lemma DownloadRowLast(st: World, folder: string, filename: string, url: string, meta: Metadata, env: Env)
    ensures var o, path := Download(st, folder, filename, url, meta, env), Join(folder, filename);
      && (o.after.rows == st.rows || o.after.rows == st.rows + [RowOf(meta)])
      && (o.ok <==> path in st.files || o.after.rows == st.rows + [RowOf(meta)])
      && (o.after.rows != st.rows ==>
            path in o.after.files && SidecarPath(path) in o.after.files &&
            o.after.files[SidecarPath(path)] == Sidecar(meta))
  {
  }

  /** No file is ever removed, not even on failure: what was written before
      an exception stays. Only the audio path and the sidecar path change. */
  lemma DownloadFrame(st: World, folder: string, filename: string, url: string, meta: Metadata, env: Env)
    ensures var o, path := Download(st, folder, filename, url, meta, env), Join(folder, filename);
      && st.files.Keys <= o.after.files.Keys
      && (forall p :: p in o.after.files && p != path && p != SidecarPath(path) ==>
            p in st.files && o.after.files[p] == st.files[p])
  {
  }

  /** A failure after the audio file is written (the sidecar cannot be
      written) returns `false` and leaves the audio file in place; every
      other file, a sidecar already at that path included, is as before. */
  lemma DownloadNoUndo(st: World, folder: string, filename: string, url: string, meta: Metadata, env: Env)
    requires Join(folder, filename) !in st.files && env.Fetch(url).Some?
    requires AudioBytes(url, env.Fetch(url).value, Join(folder, filename), env).Some?
    requires !env.Writable(SidecarPath(Join(folder, filename)))
    ensures var o, path := Download(st, folder, filename, url, meta, env), Join(folder, filename);
      !o.ok && o.after.rows == st.rows &&
      o.after.files == st.files[path := Blob(AudioBytes(url, env.Fetch(url).value, path, env).value)]
  {
  }

  /** After a successful download, downloading again is a skip. */
  lemma DownloadRepeat(st: World, folder: string, filename: string, url: string, meta: Metadata, env: Env)
    requires Download(st, folder, filename, url, meta, env).ok
    ensures var st' := Download(st, folder, filename, url, meta, env).after;
      Download(st', folder, filename, url, meta, env) == Outcome(true, st')
  {
    DownloadRowLast(st, folder, filename, url, meta, env);
    DownloadSkipsExisting(st, folder, filename, url, meta, env);
    var st' := Download(st, folder, filename, url, meta, env).after;
    DownloadFrame(st, folder, filename, url, meta, env);
    DownloadSkipsExisting(st', folder, filename, url, meta, env);
  }

  /** The process-wide state: the files under the root folder and the DuckDB
      `metadata` table. */
  class Archive {
    var files: map<string, FileContent>
    var rows: seq<Row>
    ghost var fetched: seq<string>

    ghost function State(): World
      reads this
    {
      World(files, rows, fetched)
    }

    /** Connecting and `CREATE TABLE IF NOT EXISTS`: rows already in the
        database file are kept. */
    constructor Open(disk: map<string, FileContent>, existing: seq<Row>)
      ensures State() == World(disk, existing, [])
    {
      files := disk;
      rows := existing;
      fetched := [];
    }

    /** `store_metadata(meta)`: one INSERT of the eleven values. */
    method StoreMetadata(meta: Metadata)
      modifies this
      ensures rows == old(rows) + [RowOf(meta)]
      ensures files == old(files) && fetched == old(fetched)
    {
      rows := rows + [RowOf(meta)];
    }

    /** `download_audio(species_folder, filename, url, metadata)`. Every
        exception is caught and reported as `false`; whatever was written
        before it stays written. */
    method DownloadAudio(folder: string, filename: string, url: string, meta: Metadata, env: Env)
      returns (ok: bool)
      modifies this
      ensures Outcome(ok, State()) == Download(old(State()), folder, filename, url, meta, env)
    {
      var path := Join(folder, filename);
      var jsonPath := SidecarPath(path);
      if path in files {
        return true;
      }
      fetched := fetched + [url];
      var reply := env.Fetch(url);
      if reply.None? {
        return false;
      }
      var body := reply.value;
      if EndsWith(url, ".mp3") {
        var wav := env.DecodeMp3(body);
        if wav.None? || !env.Writable(path) {
          return false;
        }
        files := files[path := Blob(wav.value)];
      } else {
        var wav := env.DecodeAny(body);
        if wav.Some? && env.Writable(path) {
          files := files[path := Blob(wav.value)];
        } else {
          // the bare `except:` falls back to writing the bytes as fetched
          if !env.Writable(path) {
            return false;
          }
          files := files[path := Blob(body)];
        }
      }
      if !env.Writable(jsonPath) {
        return false;
      }
      files := files[jsonPath := Sidecar(meta)];
      StoreMetadata(meta);
      return true;
    }
  }
}
