/** The Xeno-Canto candidate loop of `fetch_xeno_canto` (Download_Audio.py
    lines 207-241): each recording with a file reference becomes one call of
    the download unit, in response order, until a recording without an `id`
    raises and abandons the rest. */
module XenoCanto {
  import opened Common
  import opened Sanitizer
  import opened Paths
  import opened Store

  /** One entry of `recordings`. The fields read with `.get` are `None` when
      the key is absent or null. `id` is read with `item['id']`, which tells
      the two apart: `None` is the absent key (the `KeyError` case),
      `Some(None)` a JSON `null`, `Some(Some(s))` a string. */
  datatype XcItem = XcItem(
    id: Option<Option<string>>, file: Option<string>, sp: Option<string>, loc: Option<string>,
    date: Option<string>, rec: Option<string>, cnt: Option<string>, lic: Option<string>)

  /** `str(item['id'])`, which is also what the f-strings render: `"None"`
      for a null id. */
  function XcId(item: XcItem): string
    requires item.id.Some?
  {
    PyStr(item.id.value)
  }

  /** One call `download_audio(species_folder, filename, file_url, metadata)`. */
  datatype Candidate = Candidate(filename: string, url: string, meta: Metadata)

  /** `if not file_url: continue` lets the item through. */
  predicate HasFile(item: XcItem)
  {
    item.file.Some? && item.file.value != ""
  }

  /** A protocol-relative reference `//host/...` gets the `https:` scheme. */
  function NormalizeUrl(fileUrl: string): string
  {
    if StartsWith(fileUrl, "//") then "https:" + fileUrl else fileUrl
  }

  /** The filename stem `sanitize(common_name)_XC_<id>`. */
  function XcStem(commonName: string, id: string): string
  {
    Sanitize(commonName) + "_XC_" + id
  }

  /** The metadata dict built for one recording. */
  function XcMetadata(commonName: string, item: XcItem, id: string, filename: string): Metadata
  {
    map["source" := Some("Xeno-Canto"), "id" := Some(id), "species" := item.sp,
        "common_name" := Some(commonName), "location" := item.loc, "date" := item.date,
        "recordist" := item.rec, "country" := item.cnt, "license" := item.lic,
        "url" := Some("https://xeno-canto.org/" + id), "filename" := Some(filename)]
  }

  /** The download call made for a recording that has a file and an id. */
  function XcCandidate(commonName: string, item: XcItem): Candidate
    requires HasFile(item) && item.id.Some?
  {
    var filename := XcStem(commonName, XcId(item)) + ".wav";
    Candidate(filename, NormalizeUrl(item.file.value), XcMetadata(commonName, item, XcId(item), filename))
  }

  /** The download calls the loop makes over `items`, in order. */
  function XcPlan(commonName: string, items: seq<XcItem>): seq<Candidate>
  {
    if items == [] then []
    else if !HasFile(items[0]) then XcPlan(commonName, items[1..])
    else if items[0].id.None? then []
    else [XcCandidate(commonName, items[0])] + XcPlan(commonName, items[1..])
  }

  /** The recordings that pass the `file` check, in order. */
  function WithFile(items: seq<XcItem>): (kept: seq<XcItem>)
    ensures |kept| <= |items|
    ensures forall it :: it in kept ==> HasFile(it) && it in items
    ensures forall i :: 0 <= i < |items| && HasFile(items[i]) ==> items[i] in kept
  {
    if items == [] then []
    else
      var rest := WithFile(items[1..]);
      assert forall i :: 0 < i < |items| ==> items[i] == items[1..][i - 1];
      if HasFile(items[0]) then [items[0]] + rest else rest
  }

  /** Filtering keeps reply order: the recordings kept from a concatenation
      are those kept from each part, one part after the other. */
  lemma {:induction false} WithFileConcat(a: seq<XcItem>, b: seq<XcItem>)
    ensures WithFile(a + b) == WithFile(a) + WithFile(b)
  {
    if a == [] {
      assert a + b == b;
    } else {
      assert (a + b)[0] == a[0];
      assert (a + b)[1..] == a[1..] + b;
      WithFileConcat(a[1..], b);
    }
  }

  /** The calls are those of the recordings with a file, one each and in
      response order, up to the first such recording that lacks an `id`. */
  lemma {:induction false} XcPlanFollowsResponse(commonName: string, items: seq<XcItem>)
    ensures var plan, kept := XcPlan(commonName, items), WithFile(items);
      && |plan| <= |kept|
      && (forall i :: 0 <= i < |plan| ==> kept[i].id.Some? && plan[i] == XcCandidate(commonName, kept[i]))
      && (|plan| < |kept| ==> kept[|plan|].id.None?)
  {
    if items != [] {
      XcPlanFollowsResponse(commonName, items[1..]);
      var plan, kept := XcPlan(commonName, items), WithFile(items);
      var plan', kept' := XcPlan(commonName, items[1..]), WithFile(items[1..]);
      if HasFile(items[0]) && items[0].id.Some? {
        assert plan == [XcCandidate(commonName, items[0])] + plan';
        assert kept == [items[0]] + kept';
        forall i | 0 < i < |plan| ensures plan[i] == plan'[i - 1] && kept[i] == kept'[i - 1] {
        }
      }
    }
  }

  /** Every recording with a file and an id is downloaded when no recording
      with a file lacks its id. */
  lemma XcPlanComplete(commonName: string, items: seq<XcItem>)
    requires forall it :: it in items && HasFile(it) ==> it.id.Some?
    ensures |XcPlan(commonName, items)| == |WithFile(items)|
  {
    XcPlanFollowsResponse(commonName, items);
    var plan, kept := XcPlan(commonName, items), WithFile(items);
    if |plan| < |kept| {
      assert kept[|plan|] in kept;
    }
  }

  /** A recording with only an id and a file reference. */
  function Bare(id: Option<Option<string>>, file: string): XcItem
  {
    XcItem(id, Some(file), None, None, None, None, None, None)
  }

  /** A JSON-null `id` does not stop the loop: that recording is downloaded
      as `<name>_XC_None.wav` with page `https://xeno-canto.org/None`, and
      the next one follows. An absent `id` ends the calls. */
  lemma NullIdDownloads(commonName: string)
    ensures var plan := XcPlan(commonName, [Bare(Some(None), "//a"), Bare(Some(Some("2")), "//b")]);
      && |plan| == 2
      && plan[0].filename == Sanitize(commonName) + "_XC_None.wav"
      && plan[0].url == "https://a"
      && plan[0].meta["url"] == Some("https://xeno-canto.org/None")
      && plan[1].filename == Sanitize(commonName) + "_XC_2.wav"
    ensures XcPlan(commonName, [Bare(None, "//a"), Bare(Some(Some("2")), "//b")]) == []
  {
    var a, b := Bare(Some(None), "//a"), Bare(Some(Some("2")), "//b");
    assert StartsWith("//a", "//") && StartsWith("//b", "//");
    assert [a, b][1..] == [b];
    assert [b][1..] == [];
    assert HasFile(a) && HasFile(b) && XcId(a) == "None";
    assert XcPlan(commonName, [b]) == [XcCandidate(commonName, b)] + XcPlan(commonName, []);
    assert XcPlan(commonName, [a, b]) == [XcCandidate(commonName, a)] + XcPlan(commonName, [b]);
    assert "https://xeno-canto.org/" + "None" == "https://xeno-canto.org/None";
    assert XcCandidate(commonName, a).meta["url"] == Some("https://xeno-canto.org/" + "None");
  }

  /** The URL of a call gets `https:` exactly when the reference is
      protocol-relative, and is the reference itself otherwise. */
  lemma XcCandidateUrl(commonName: string, item: XcItem)
    requires HasFile(item) && item.id.Some?
    ensures var c, f := XcCandidate(commonName, item), item.file.value;
      && (StartsWith(f, "//") ==> c.url == "https:" + f && StartsWith(c.url, "https://"))
      && (!StartsWith(f, "//") ==> c.url == f)
  {
    var f := item.file.value;
    if StartsWith(f, "//") {
      assert ("https:" + f)[..8] == "https:" + f[..2];
    }
  }

  /** The stem never starts with `/`: it starts with a sanitised name, or
      with `_` when that name is empty. */
  lemma StemIsRelative(commonName: string, id: string, ext: string)
    ensures !StartsWith(XcStem(commonName, id) + ext, "/")
  {
    var s := Sanitize(commonName);
    var t := XcStem(commonName, id) + ext;
    if s == [] {
      assert t[0] == '_';
    } else {
      assert s[0] in s;
      assert t[0] == s[0];
    }
  }

  /** A `/` in a generated file name can only come from the id. */
  lemma NoSlashInFilename(commonName: string, id: string)
    ensures '/' in XcStem(commonName, id) + ".wav" <==> '/' in id
  {
    var s := Sanitize(commonName);
    assert !Safe('/');
    assert XcStem(commonName, id) + ".wav" == s + "_XC_" + id + ".wav";
    if '/' in id {
      var k :| 0 <= k < |id| && id[k] == '/';
      assert (s + "_XC_" + id + ".wav")[|s| + 4 + k] == '/';
    }
  }

  /** The audio path of a call is the species folder followed by
      `<stem>.wav`, and its sidecar is `<stem>.json` beside it, never the
      audio file itself. The id is not sanitised: the file name holds a `/`
      only when the id does. */
  lemma XcCandidatePaths(commonName: string, item: XcItem, folder: string)
    requires HasFile(item) && item.id.Some?
    ensures var c, stem := XcCandidate(commonName, item), XcStem(commonName, XcId(item));
      && c.filename == stem + ".wav"
      && ('/' in c.filename <==> '/' in XcId(item))
      && StartsWith(Join(folder, c.filename), folder)
      && SidecarPath(Join(folder, c.filename)) == Join(folder, stem + ".json")
      && SidecarPath(Join(folder, c.filename)) != Join(folder, c.filename)
  {
    var stem := XcStem(commonName, XcId(item));
    NoSlashInFilename(commonName, XcId(item));
    StemIsRelative(commonName, XcId(item), ".wav");
    StemIsRelative(commonName, XcId(item), ".json");
    JoinInside(folder, stem + ".wav");
    JoinInside(folder, stem + ".json");
    var prefix := FolderPrefix(folder);
    assert prefix + (stem + ".wav") == (prefix + stem) + ".wav";
    assert prefix + (stem + ".json") == (prefix + stem) + ".json";
    SidecarOfWav(prefix + stem);
  }

  /** The row a call stores holds, column by column, the source name, the id,
      the recording's fields, the common name, the recording's page and the
      filename. */
  lemma XcCandidateRow(commonName: string, item: XcItem)
    requires HasFile(item) && item.id.Some?
    ensures var c, id := XcCandidate(commonName, item), XcId(item);
      RowOf(c.meta).Values() ==
        [Some("Xeno-Canto"), Some(id), item.sp, Some(commonName), item.loc, item.date,
         item.rec, item.cnt, item.lic, Some("https://xeno-canto.org/" + id), Some(c.filename)]
  {
  }

  /** One recording of the loop: skipped without a file, the end of the
      calls when it has a file but no id, one more call otherwise. */
  lemma XcPlanAdvance(commonName: string, items: seq<XcItem>, i: nat, calls: seq<Candidate>)
    requires i < |items| && XcPlan(commonName, items) == calls + XcPlan(commonName, items[i..])
    ensures !HasFile(items[i]) ==> XcPlan(commonName, items) == calls + XcPlan(commonName, items[i + 1..])
    ensures HasFile(items[i]) && items[i].id.None? ==> XcPlan(commonName, items) == calls
    ensures HasFile(items[i]) && items[i].id.Some? ==>
      XcPlan(commonName, items) == (calls + [XcCandidate(commonName, items[i])]) + XcPlan(commonName, items[i + 1..])
  {
    assert items[i..][0] == items[i];
    assert items[i..][1..] == items[i + 1..];
    if HasFile(items[i]) && items[i].id.None? {
      assert calls + [] == calls;
    }
  }

  /** The loop ran through every recording. */
  lemma XcPlanDone(commonName: string, items: seq<XcItem>, calls: seq<Candidate>)
    requires XcPlan(commonName, items) == calls + XcPlan(commonName, items[|items|..])
    ensures XcPlan(commonName, items) == calls
  {
    assert items[|items|..] == [];
    assert calls + [] == calls;
  }

  /** The effect of the calls `cands`, made one after the other. */
  function DownloadAll(st: World, folder: string, cands: seq<Candidate>, env: Env): World
    decreases |cands|
  {
    if cands == [] then st
    else
      var c := cands[|cands| - 1];
      Download(DownloadAll(st, folder, cands[..|cands| - 1], env), folder, c.filename, c.url, c.meta, env).after
  }

  /** One more call at the end of a run. */
  lemma DownloadAllSnoc(st: World, folder: string, cands: seq<Candidate>, c: Candidate, env: Env)
    ensures DownloadAll(st, folder, cands + [c], env) ==
      Download(DownloadAll(st, folder, cands, env), folder, c.filename, c.url, c.meta, env).after
  {
    assert (cands + [c])[..|cands|] == cands;
  }

  /** A run of downloads deletes no file and never rewrites the table: rows
      are only appended, at most one per call, each the row of one of the
      calls' metadata. */
  lemma {:induction false} DownloadAllAppends(st: World, folder: string, cands: seq<Candidate>, env: Env)
    ensures var r := DownloadAll(st, folder, cands, env);
      && st.files.Keys <= r.files.Keys
      && |st.rows| <= |r.rows| <= |st.rows| + |cands|
      && r.rows[..|st.rows|] == st.rows
      && (forall k :: |st.rows| <= k < |r.rows| ==> exists c :: c in cands && r.rows[k] == RowOf(c.meta))
    decreases |cands|
  {
    if cands != [] {
      var init := cands[..|cands| - 1];
      var c := cands[|cands| - 1];
      DownloadAllAppends(st, folder, init, env);
      var mid := DownloadAll(st, folder, init, env);
      var r := DownloadAll(st, folder, cands, env);
      assert r == Download(mid, folder, c.filename, c.url, c.meta, env).after;
      DownloadRowLast(mid, folder, c.filename, c.url, c.meta, env);
      DownloadFrame(mid, folder, c.filename, c.url, c.meta, env);
      assert r.rows[..|mid.rows|] == mid.rows;
      forall k | |st.rows| <= k < |r.rows| ensures exists c' :: c' in cands && r.rows[k] == RowOf(c'.meta) {
        if k < |mid.rows| {
          var c' :| c' in init && mid.rows[k] == RowOf(c'.meta);
          assert c' in cands;
        } else {
          assert r.rows[k] == RowOf(c.meta);
        }
      }
    }
  }

  /** A row a run of downloads adds carries the source that all the calls'
      metadata name. */
  lemma {:induction false} DownloadAllSources(st: World, folder: string, cands: seq<Candidate>, env: Env, source: string)
    requires forall c :: c in cands ==> RowOf(c.meta).source == Some(source)
    ensures var r := DownloadAll(st, folder, cands, env);
      |st.rows| <= |r.rows| && forall k :: |st.rows| <= k < |r.rows| ==> r.rows[k].source == Some(source)
    decreases |cands|
  {
    if cands != [] {
      var init, c := cands[..|cands| - 1], cands[|cands| - 1];
      assert c in cands;
      assert forall c' :: c' in init ==> c' in cands;
      DownloadAllSources(st, folder, init, env, source);
      var mid := DownloadAll(st, folder, init, env);
      DownloadRowLast(mid, folder, c.filename, c.url, c.meta, env);
    }
  }

  /** Re-running calls whose audio files all exist changes nothing and
      fetches nothing: the restart idempotence the existence check gives. */
  lemma {:induction false} DownloadAllExisting(st: World, folder: string, cands: seq<Candidate>, env: Env)
    requires forall c :: c in cands ==> Join(folder, c.filename) in st.files
    ensures DownloadAll(st, folder, cands, env) == st
    decreases |cands|
  {
    if cands != [] {
      var init := cands[..|cands| - 1];
      assert forall c :: c in init ==> c in cands;
      DownloadAllExisting(st, folder, init, env);
      var c := cands[|cands| - 1];
      assert c in cands;
      DownloadSkipsExisting(st, folder, c.filename, c.url, c.meta, env);
    }
  }

  /** The calls made for a reply (none when the request failed). */
  function ReplyPlan(commonName: string, reply: Option<seq<XcItem>>): seq<Candidate>
  {
    match reply
    case None => []
    case Some(items) => XcPlan(commonName, items)
  }

  /** The body of the loop for a recording that has a file and an id: the
      URL, filename and metadata are built and the download unit called. */
  method DownloadRecording(archive: Archive, commonName: string, folder: string, item: XcItem, env: Env)
    returns (ghost c: Candidate)
    requires HasFile(item) && item.id.Some?
    modifies archive
    ensures c == XcCandidate(commonName, item)
    ensures archive.State() == Download(old(archive.State()), folder, c.filename, c.url, c.meta, env).after
  {
    var fileUrl := item.file.value;
    if StartsWith(fileUrl, "//") {
      fileUrl := "https:" + fileUrl;
    }
    var id := PyStr(item.id.value);
    var filename := Sanitize(commonName) + "_XC_" + id + ".wav";
    var metadata := XcMetadata(commonName, item, id, filename);
    var _ := archive.DownloadAudio(folder, filename, fileUrl, metadata, env);
    c := Candidate(filename, fileUrl, metadata);
  }

  /** `fetch_xeno_canto(common_name, scientific_name, species_folder)` given
      the parsed reply to the query by scientific name (`None`: the request
      or its JSON failed). The ghost `calls` records the download calls. */
  method FetchXenoCanto(archive: Archive, commonName: string, folder: string, reply: Option<seq<XcItem>>, env: Env)
    returns (ghost calls: seq<Candidate>)
    modifies archive
    ensures calls == ReplyPlan(commonName, reply)
    ensures archive.State() == DownloadAll(old(archive.State()), folder, calls, env)
  {
    calls := [];
    if reply.None? {
      return;
    }
    var recordings := reply.value;
    ghost var st0 := archive.State();
    for i := 0 to |recordings|
      invariant XcPlan(commonName, recordings) == calls + XcPlan(commonName, recordings[i..])
      invariant archive.State() == DownloadAll(st0, folder, calls, env)
    {
      var item := recordings[i];
      XcPlanAdvance(commonName, recordings, i, calls);
      if !HasFile(item) {
        continue;
      }
      if item.id.None? {
        // `item['id']` raises; the handler ends the function
        return;
      }
      DownloadAllSnoc(st0, folder, calls, XcCandidate(commonName, item), env);
      ghost var c := DownloadRecording(archive, commonName, folder, item, env);
      calls := calls + [c];
    }
    XcPlanDone(commonName, recordings, calls);
  }
}
