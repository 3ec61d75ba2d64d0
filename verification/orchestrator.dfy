/** The species walk of `main` (Download_Audio.py lines 245-271): load the
    code table once, then for each species in order classify it, derive its
    folder, run the Macaulay fetch and then the Xeno-Canto fetch. */
module Orchestrator {
  import opened Common
  import opened Sanitizer
  import opened Paths
  import opened Taxonomy
  import opened Store
  import opened Macaulay
  import opened XenoCanto

  /** The services `main` reaches, each as the parsed replies it would get:
      GBIF by scientific name, Macaulay by taxon code, Xeno-Canto by
      scientific name (a name missing from a map: the request or its JSON
      failed); `env` serves the download unit. */
  datatype Services = Services(
    gbifReplies: map<string, JsonObject>,
    macaulayReplies: map<string, Server>,
    xenoCantoReplies: map<string, seq<XcItem>>,
    env: Env)
  {
    function Gbif(scientificName: string): Option<JsonObject>
    {
      if scientificName in gbifReplies then Some(gbifReplies[scientificName]) else None
    }

    /** A code the search endpoint knows nothing about gets empty pages. */
    function MacaulayServer(code: string): Server
    {
      if code in macaulayReplies then macaulayReplies[code] else []
    }

    function XenoCantoReply(scientificName: string): Option<seq<XcItem>>
    {
      if scientificName in xenoCantoReplies then Some(xenoCantoReplies[scientificName]) else None
    }
  }

  /** `main_audio_folder`, the root every species folder is built under. */
  const MainAudioFolder: string := "/mnt/d/Mints"

  /** The folder one species is filed under. */
  function FolderOf(root: string, e: TaxonEntry, sv: Services): string
  {
    SpeciesFolder(root, sv.Gbif(e.scientificName), e.scientificName)
  }

  /** The Xeno-Canto download calls made for one species. */
  function SpeciesCalls(e: TaxonEntry, sv: Services): seq<Candidate>
  {
    ReplyPlan(e.commonName, sv.XenoCantoReply(e.scientificName))
  }

  /** The state after walking `species` in order. The Macaulay fetch leaves
      no trace: its result is discarded and it downloads nothing. */
  function Walk(st: World, root: string, species: seq<TaxonEntry>, sv: Services): World
    decreases |species|
  {
    if species == [] then st
    else
      var e := species[|species| - 1];
      DownloadAll(Walk(st, root, species[..|species| - 1], sv), FolderOf(root, e, sv), SpeciesCalls(e, sv), sv.env)
  }

  /** One more species at the end of a walk. */
  lemma WalkStep(st: World, root: string, species: seq<TaxonEntry>, i: nat, sv: Services)
    requires i < |species|
    ensures Walk(st, root, species[..i + 1], sv) ==
      DownloadAll(Walk(st, root, species[..i], sv), FolderOf(root, species[i], sv), SpeciesCalls(species[i], sv), sv.env)
  {
    assert species[..i + 1][..i] == species[..i];
  }

  /** `main()`, given the eBird table (`None`: the fetch failed, which is
      fatal before any species is visited). */
  method Run(archive: Archive, table: Option<CodeTable>, sv: Services) returns (completed: bool)
    modifies archive
    ensures completed == table.Some?
    ensures table.None? ==> archive.State() == old(archive.State())
    ensures table.Some? ==> archive.State() == Walk(old(archive.State()), MainAudioFolder, ParseTable(table.value), sv)
  {
    var root := MainAudioFolder;
    if table.None? {
      return false;
    }
    var species := LoadTaxonomy(table.value);
    ghost var st0 := archive.State();
    for i := 0 to |species|
      invariant archive.State() == Walk(st0, root, species[..i], sv)
    {
      var e := species[i];
      var folder := FolderOf(root, e, sv);
      var _, _ := FetchMacaulay(sv.MacaulayServer(e.code));
      ghost var calls := FetchXenoCanto(archive, e.commonName, folder, sv.XenoCantoReply(e.scientificName), sv.env);
      WalkStep(st0, root, species, i, sv);
    }
    assert species[..|species|] == species;
    return true;
  }

  /** The walk only adds: no file disappears and the rows that were there
      stay, in place. */
  lemma {:induction false} WalkAppends(st: World, root: string, species: seq<TaxonEntry>, sv: Services)
    ensures var r := Walk(st, root, species, sv);
      st.files.Keys <= r.files.Keys && |st.rows| <= |r.rows| && r.rows[..|st.rows|] == st.rows
    decreases |species|
  {
    if species != [] {
      var e := species[|species| - 1];
      var mid := Walk(st, root, species[..|species| - 1], sv);
      WalkAppends(st, root, species[..|species| - 1], sv);
      DownloadAllAppends(mid, FolderOf(root, e, sv), SpeciesCalls(e, sv), sv.env);
      PrefixOfPrefix(st.rows, mid.rows, Walk(st, root, species, sv).rows);
    }
  }

  lemma PrefixOfPrefix(a: seq<Row>, b: seq<Row>, c: seq<Row>)
    requires |a| <= |b| <= |c| && b[..|a|] == a && c[..|b|] == b
    ensures c[..|a|] == a
  {
    assert c[..|a|] == c[..|b|][..|a|];
  }

  /** Every row a walk adds comes from Xeno-Canto: the Macaulay path stores
      nothing. */
  lemma {:induction false} WalkRowsFromXenoCanto(st: World, root: string, species: seq<TaxonEntry>, sv: Services)
    ensures var r := Walk(st, root, species, sv);
      |st.rows| <= |r.rows| && forall k :: |st.rows| <= k < |r.rows| ==> r.rows[k].source == Some("Xeno-Canto")
    decreases |species|
  {
    if species != [] {
      var e := species[|species| - 1];
      var init := species[..|species| - 1];
      var mid := Walk(st, root, init, sv);
      var r := Walk(st, root, species, sv);
      WalkRowsFromXenoCanto(st, root, init, sv);
      CallsAreXenoCanto(e.commonName, sv.XenoCantoReply(e.scientificName));
      DownloadAllSources(mid, FolderOf(root, e, sv), SpeciesCalls(e, sv), sv.env, "Xeno-Canto");
      DownloadAllAppends(mid, FolderOf(root, e, sv), SpeciesCalls(e, sv), sv.env);
      forall k | |st.rows| <= k < |mid.rows| ensures r.rows[k].source == Some("Xeno-Canto") {
        assert r.rows[k] == r.rows[..|mid.rows|][k];
      }
    }
  }

  /** Every call the Xeno-Canto loop makes carries "Xeno-Canto" as source. */
  lemma CallsAreXenoCanto(commonName: string, reply: Option<seq<XcItem>>)
    ensures forall c :: c in ReplyPlan(commonName, reply) ==> RowOf(c.meta).source == Some("Xeno-Canto")
  {
    if reply.Some? {
      var items := reply.value;
      var plan := XcPlan(commonName, items);
      XcPlanFollowsResponse(commonName, items);
      forall c | c in plan ensures RowOf(c.meta).source == Some("Xeno-Canto") {
        var i :| 0 <= i < |plan| && plan[i] == c;
        XcCandidateRow(commonName, WithFile(items)[i]);
      }
    }
  }

  /** A second walk over a table whose recordings were all stored by the
      first changes nothing and downloads nothing (the GBIF, Macaulay and
      Xeno-Canto queries are still made). */
  lemma {:induction false} WalkExisting(st: World, root: string, species: seq<TaxonEntry>, sv: Services)
    requires forall e, c :: e in species && c in SpeciesCalls(e, sv) ==>
      Join(FolderOf(root, e, sv), c.filename) in st.files
    ensures Walk(st, root, species, sv) == st
    decreases |species|
  {
    if species != [] {
      var e := species[|species| - 1];
      var init := species[..|species| - 1];
      assert forall e' :: e' in init ==> e' in species;
      WalkExisting(st, root, init, sv);
      assert e in species;
      DownloadAllExisting(st, FolderOf(root, e, sv), SpeciesCalls(e, sv), sv.env);
    }
  }
}
