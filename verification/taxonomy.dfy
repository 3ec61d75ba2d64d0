/** Taxonomy resolution: parsing the eBird code table (`load_taxonomy`,
    Download_Audio.py lines 31-43), the GBIF classification with its
    "Unknown" defaults (`get_taxonomy_from_gbif`, lines 72-87), and the
    species folder that `main` derives from them (lines 258-262). */
module Taxonomy {
  import opened Common
  import opened Sanitizer
  import opened Paths

  /** One row of the species table: "Code", "Scientific name", "Common name". */
  datatype TaxonEntry = TaxonEntry(code: string, scientificName: string, commonName: string)

  /** The eBird JSON object, as its (code, value) pairs in document order. */
  type CodeTable = seq<(string, string)>

  /** `s.split("_", 1)` on a string that holds `_`: the text before the first
      `_` and everything after it. */
  function SplitFirst(s: string): (r: (string, string))
    requires '_' in s
    ensures r.0 + "_" + r.1 == s
    ensures '_' !in r.0
  {
    if s[0] == '_' then ("", s[1..])
    else
      assert '_' in s[1..] by { assert s == [s[0]] + s[1..]; }
      var (a, b) := SplitFirst(s[1..]);
      ([s[0]] + a, b)
  }

  /** The split is at the FIRST underscore: it is the only split whose left
      part has no `_`, so a common name may keep underscores of its own. */
  lemma {:induction false} SplitFirstUnique(s: string, sci: string, common: string)
    requires sci + "_" + common == s
    requires '_' !in sci
    ensures '_' in s
    ensures SplitFirst(s) == (sci, common)
  {
    assert s[|sci|] == '_';
    if sci != [] {
      assert s[1..] == sci[1..] + "_" + common;
      assert sci[0] != '_' by { assert sci[0] in sci; }
      assert forall c :: c in sci[1..] ==> c in sci;
      SplitFirstUnique(s[1..], sci[1..], common);
      assert sci == [sci[0]] + sci[1..];
    } else {
      assert s[1..] == common;
    }
  }

  /** The entry a value with `_` yields. */
  function EntryOf(code: string, species: string): (e: TaxonEntry)
    requires '_' in species
  {
    var (sci, common) := SplitFirst(species);
    TaxonEntry(code, sci, common)
  }

  /** The rows `load_taxonomy` collects from the first pairs of the table. */
  function ParseTable(data: CodeTable): (rows: seq<TaxonEntry>)
    ensures |rows| <= |data|
    decreases |data|
  {
    if data == [] then []
    else
      var (code, species) := data[|data| - 1];
      ParseTable(data[..|data| - 1]) + (if '_' in species then [EntryOf(code, species)] else [])
  }

  /** The loop of `load_taxonomy` (lines 36-40): only values holding `_` are
      kept, split at the first `_`. */
  method LoadTaxonomy(data: CodeTable) returns (rows: seq<TaxonEntry>)
    ensures rows == ParseTable(data)
    ensures forall r :: r in rows ==> '_' !in r.scientificName
  {
    rows := [];
    for i := 0 to |data|
      invariant rows == ParseTable(data[..i])
    {
      var (code, species) := data[i];
      if '_' in species {
        var (sci, common) := SplitFirst(species);
        rows := rows + [TaxonEntry(code, sci, common)];
      }
      assert data[..i + 1][..i] == data[..i];
    }
    assert data[..|data|] == data;
    ParseTableSound(data);
  }

  /** Parsing keeps input order: the table of a concatenation is the
      concatenation of the tables. */
  lemma {:induction false} ParseTableConcat(a: CodeTable, b: CodeTable)
    ensures ParseTable(a + b) == ParseTable(a) + ParseTable(b)
    decreases |b|
  {
    if b == [] {
      assert a + b == a;
    } else {
      var n := |b| - 1;
      assert (a + b)[..|a + b| - 1] == a + b[..n];
      assert b[..n] + [b[n]] == b;
      ParseTableConcat(a, b[..n]);
    }
  }

  /** One pair yields one row exactly when its value holds `_`. */
  lemma ParseTableSingle(code: string, species: string)
    ensures ParseTable([(code, species)]) ==
      (if '_' in species then [EntryOf(code, species)] else [])
  {
    assert [(code, species)][..0] == [];
  }

  /** Every row comes from a pair of the table with a `_` in its value; the
      scientific name holds no `_`, and rejoining it to the common name with
      `_` gives back that value. */
  lemma {:induction false} ParseTableSound(data: CodeTable)
    ensures forall r :: r in ParseTable(data) ==>
      '_' !in r.scientificName &&
      (r.code, r.scientificName + "_" + r.commonName) in data
    decreases |data|
  {
    if data != [] {
      var init := data[..|data| - 1];
      var (code, species) := data[|data| - 1];
      ParseTableSound(init);
      forall r | r in ParseTable(data)
        ensures '_' !in r.scientificName
        ensures (r.code, r.scientificName + "_" + r.commonName) in data
      {
        if r in ParseTable(init) {
          assert (r.code, r.scientificName + "_" + r.commonName) in init;
        } else {
          assert '_' in species && r == EntryOf(code, species);
          assert data[|data| - 1] in data;
        }
      }
    }
  }

  /** Every pair whose value holds `_` yields its row. */
  lemma {:induction false} ParseTableComplete(data: CodeTable, i: nat)
    requires i < |data| && '_' in data[i].1
    ensures EntryOf(data[i].0, data[i].1) in ParseTable(data)
    decreases |data|
  {
    var init := data[..|data| - 1];
    if i < |data| - 1 {
      assert init[i] == data[i];
      ParseTableComplete(init, i);
    }
  }

  /** The classification fields `main` reads from a GBIF reply. */
  datatype Classification = Classification(cls: Option<string>, order: Option<string>, family: Option<string>)

  /** A parsed JSON object: key to string value, `None` for JSON `null`. */
  type JsonObject = map<string, Option<string>>

  const Unknown: Option<string> := Some("Unknown")

  /** `data.get(key, 'Unknown')`. */
  function GetOrUnknown(data: JsonObject, key: string): Option<string>
  {
    if key in data then data[key] else Unknown
  }

  /** `get_taxonomy_from_gbif` given the parsed reply, or `None` when the
      request, its status or its JSON failed. */
  function Classify(reply: Option<JsonObject>): (c: Classification)
    ensures reply.None? ==> c == Classification(Unknown, Unknown, Unknown)
    ensures reply.Some? ==> c.cls == (if "class" in reply.value then reply.value["class"] else Unknown)
    ensures reply.Some? ==> c.order == (if "order" in reply.value then reply.value["order"] else Unknown)
    ensures reply.Some? ==> c.family == (if "family" in reply.value then reply.value["family"] else Unknown)
  {
    match reply
    case None => Classification(Unknown, Unknown, Unknown)
    case Some(data) =>
      Classification(GetOrUnknown(data, "class"), GetOrUnknown(data, "order"), GetOrUnknown(data, "family"))
  }

  /** The segments `main` joins into the species folder: the root, then
      class, order, family and scientific name, each sanitised. */
  function SpeciesSegments(root: string, reply: Option<JsonObject>, scientificName: string): (segs: seq<string>)
    ensures |segs| == 5 && segs[0] == root
    ensures AllSafe(segs[1]) && AllSafe(segs[2]) && AllSafe(segs[3]) && AllSafe(segs[4])
    ensures segs[4] == Sanitize(scientificName)
  {
    var t := Classify(reply);
    [root, Sanitize(PyStr(t.cls)), Sanitize(PyStr(t.order)), Sanitize(PyStr(t.family)), Sanitize(scientificName)]
  }

  /** `species_folder` as `os.path.join` builds it. */
  function SpeciesFolder(root: string, reply: Option<JsonObject>, scientificName: string): string
  {
    JoinAll(root, SpeciesSegments(root, reply, scientificName)[1..])
  }

  /** A failed classification files the species under
      `root/Unknown/Unknown/Unknown/<sanitised name>`. */
  lemma FailedClassificationFolder(root: string, scientificName: string)
    ensures SpeciesSegments(root, None, scientificName) ==
      [root, "Unknown", "Unknown", "Unknown", Sanitize(scientificName)]
  {
    assert Classify(None) == Classification(Unknown, Unknown, Unknown);
    assert PyStr(Unknown) == "Unknown";
    SanitizeUnknown();
  }

  /** The default survives sanitising. */
  lemma SanitizeUnknown()
    ensures Sanitize("Unknown") == "Unknown"
  {
    SanitizeFixes("Unknown");
  }

  /** The folder segment of one rank of a GBIF reply: the sanitised `str()`
      of its value when the key is there, `Unknown` otherwise. */
  function RankSegment(data: JsonObject, key: string): string
  {
    if key in data then Sanitize(PyStr(data[key])) else "Unknown"
  }

  /** A successful GBIF lookup files the species under the sanitised class,
      order and family the reply holds, each `Unknown` when its key is
      missing (`"None"` for a JSON `null`). */
  lemma ClassifiedFolder(root: string, data: JsonObject, scientificName: string)
    ensures SpeciesSegments(root, Some(data), scientificName) ==
      [root, RankSegment(data, "class"), RankSegment(data, "order"), RankSegment(data, "family"),
       Sanitize(scientificName)]
  {
    assert PyStr(Unknown) == "Unknown";
    SanitizeUnknown();
  }

  /** No segment below the root holds a `/`, so none adds levels. A segment
      may still be empty or `..`. */
  lemma SegmentsHaveNoSeparator(root: string, reply: Option<JsonObject>, scientificName: string)
    ensures var segs := SpeciesSegments(root, reply, scientificName);
      forall i :: 1 <= i < |segs| ==> '/' !in segs[i]
  {
    var segs := SpeciesSegments(root, reply, scientificName);
    assert !Safe('/');
    forall i | 1 <= i < |segs| ensures '/' !in segs[i] {
      assert i == 1 || i == 2 || i == 3 || i == 4;
    }
  }
}
