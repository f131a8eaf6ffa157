/**
 * Turning one CVE item of an NVD feed into the columns of the `nvd` table:
 * `get_vulnerable_software_list` and `get_data`. Each operation is a method
 * written as the Python loops are, proved equal to a function that states the
 * result, including which exceptions escape and which are swallowed.
 */
module CveExtract {
  import opened Wrappers
  import opened Json
  import PyStr

  // ---------------------------------------------------------------------
  // get_vulnerable_software_list
  // ---------------------------------------------------------------------

  /**
   * What one entry of a node's list yields inside the `try`: nothing unless it
   * is a dict; for a dict, `vulnerable` is read (it may raise) and, when it
   * equals True, so is `cpe23Uri` (it may raise too).
   */
  function EntryUri(cpe: JValue): Result<Option<JValue>>
  {
    if !cpe.JObj? then Ok(None)
    else
      var vulnerable :- Lookup(cpe, "vulnerable");
      if EqualsTrue(vulnerable) then
        var uri :- Lookup(cpe, "cpe23Uri");
        Ok(Some(uri))
      else Ok(None)
  }

  /** The URIs collected from a list so far, and whether an entry has raised. */
  datatype Walk = Walk(uris: seq<JValue>, raised: bool)

  /** The inner `for cpe in node[cpes]` loop: it collects until an entry raises, and stops there. */
  function WalkEntries(entries: seq<JValue>): Walk
  {
    if |entries| == 0 then Walk([], false)
    else
      var w := WalkEntries(entries[..|entries| - 1]);
      if w.raised then w
      else match EntryUri(entries[|entries| - 1])
        case Err(_) => Walk(w.uris, true)
        case Ok(None) => w
        case Ok(Some(u)) => Walk(w.uris + [u], false)
  }

  /** What one key of a node contributes: the `try` swallows every failure, keeping what was collected before it. */
  function KeyUris(node: JValue, key: string): seq<JValue>
  {
    match Lookup(node, key)
    case Err(_) => []
    case Ok(value) =>
      match Iterate(value)
      case Err(_) => []
      case Ok(entries) => WalkEntries(entries).uris
  }

  /** The keys of a node, in order. */
  function KeysUris(node: JValue, keys: seq<string>): seq<JValue>
  {
    if |keys| == 0 then []
    else KeysUris(node, keys[..|keys| - 1]) + KeyUris(node, keys[|keys| - 1])
  }

  /** One node: `node.keys()` is outside the `try`, so a node that is not a dict raises out of the function. */
  function NodeUris(node: JValue): Result<seq<JValue>>
  {
    var keys :- Keys(node);
    Ok(KeysUris(node, keys))
  }

  function NodesUris(nodes: seq<JValue>): Result<seq<JValue>>
  {
    if |nodes| == 0 then Ok([])
    else
      var before :- NodesUris(nodes[..|nodes| - 1]);
      var here :- NodeUris(nodes[|nodes| - 1]);
      Ok(before + here)
  }

  /** get_vulnerable_software_list(config): the comma-join of the collected URIs, or the exception that escapes. */
  function VulnerableSoftware(config: JValue): Result<string>
  {
    var nodesValue :- Lookup(config, "nodes");
    var nodes :- Iterate(nodesValue);
    var uris :- NodesUris(nodes);
    JoinStrings(uris, ",")
  }

  /** Once an entry has raised, the entries after it change nothing. */
  lemma {:induction false} WalkRaisedStays(entries: seq<JValue>, p: nat)
    requires p <= |entries| && WalkEntries(entries[..p]).raised
    ensures WalkEntries(entries) == WalkEntries(entries[..p])
    decreases |entries| - p
  {
    if p < |entries| {
      var n := |entries|;
      var shorter := entries[..n - 1];
      assert shorter[..p] == entries[..p];
      WalkRaisedStays(shorter, p);
    } else {
      assert entries[..p] == entries;
    }
  }

  lemma WalkPrefixStep(entries: seq<JValue>, k: nat)
    requires k < |entries|
    ensures WalkEntries(entries[..k + 1]) ==
      var w := WalkEntries(entries[..k]);
      if w.raised then w
      else match EntryUri(entries[k])
        case Err(_) => Walk(w.uris, true)
        case Ok(None) => w
        case Ok(Some(u)) => Walk(w.uris + [u], false)
  {
    assert entries[..k + 1][..k] == entries[..k];
  }

  /** Walking a concatenation walks the first part, then, unless it raised, the second. */
  lemma {:induction false} WalkConcat(a: seq<JValue>, b: seq<JValue>)
    ensures WalkEntries(a + b) ==
      var wa := WalkEntries(a);
      var wb := WalkEntries(b);
      if wa.raised then wa else Walk(wa.uris + wb.uris, wb.raised)
  {
    if |b| == 0 {
      assert a + b == a;
    } else {
      var b' := b[..|b| - 1];
      WalkConcat(a, b');
      assert (a + b)[..|a + b| - 1] == a + b';
      assert (a + b)[|a + b| - 1] == b[|b| - 1];
    }
  }

  lemma AppendAssoc<T>(x: seq<T>, y: seq<T>, z: seq<T>)
    ensures x + y + z == x + (y + z)
  {
  }

  /** No entry before position `i` raises. */
  predicate QuietBefore(entries: seq<JValue>, i: int) {
    forall j :: 0 <= j < i && j < |entries| ==> EntryUri(entries[j]).Ok?
  }

  /** The walk stops early exactly when some entry raises. */
  lemma {:induction false} WalkRaises(entries: seq<JValue>)
    ensures WalkEntries(entries).raised <==> exists i :: 0 <= i < |entries| && EntryUri(entries[i]).Err?
  {
    if |entries| > 0 {
      var n := |entries|;
      var prefix := entries[..n - 1];
      WalkRaises(prefix);
      assert forall j :: 0 <= j < n - 1 ==> prefix[j] == entries[j];
    }
  }

  /**
   * The walk yields exactly the `cpe23Uri` of the vulnerable dict entries that
   * no raising entry precedes.
   */
  lemma {:induction false} WalkCollects(entries: seq<JValue>, x: JValue)
    ensures x in WalkEntries(entries).uris <==>
      exists i :: 0 <= i < |entries| && EntryUri(entries[i]) == Ok(Some(x)) && QuietBefore(entries, i)
  {
    if |entries| > 0 {
      var n := |entries|;
      var prefix := entries[..n - 1];
      WalkCollects(prefix, x);
      WalkRaises(prefix);
      assert forall j :: 0 <= j < n - 1 ==> prefix[j] == entries[j];
      var w := WalkEntries(prefix);
      assert w.raised <==> !QuietBefore(entries, n - 1);
      if x in WalkEntries(entries).uris && x !in w.uris {
        assert EntryUri(entries[n - 1]) == Ok(Some(x));
      }
      if exists i :: 0 <= i < n && EntryUri(entries[i]) == Ok(Some(x)) && QuietBefore(entries, i) {
        var i :| 0 <= i < n && EntryUri(entries[i]) == Ok(Some(x)) && QuietBefore(entries, i);
        if i < n - 1 {
          assert QuietBefore(prefix, i);
        }
      }
    }
  }

  /**
   * A key whose list starts with a dict that has no `vulnerable` member (a
   * child node under `children`) contributes nothing, whatever the child holds:
   * nested nodes are not descended into.
   */
  lemma ChildrenNotDescended(node: JValue, key: string, items: seq<JValue>)
    requires Lookup(node, key) == Ok(JArr(items))
    requires |items| > 0 && items[0].JObj? && Lookup(items[0], "vulnerable").Err?
    ensures KeyUris(node, key) == []
  {
    WalkPrefixStep(items, 0);
    assert items[..0] == [];
    WalkRaisedStays(items, 1);
  }

  /** The keys of a node contribute in order, each independently of the others. */
  lemma {:induction false} KeysUrisConcat(node: JValue, a: seq<string>, b: seq<string>)
    ensures KeysUris(node, a + b) == KeysUris(node, a) + KeysUris(node, b)
  {
    if |b| == 0 {
      assert a + b == a;
    } else {
      var b' := b[..|b| - 1];
      var last := b[|b| - 1];
      KeysUrisConcat(node, a, b');
      assert (a + b)[..|a + b| - 1] == a + b';
      assert (a + b)[|a + b| - 1] == last;
      AppendAssoc(KeysUris(node, a), KeysUris(node, b'), KeyUris(node, last));
    }
  }

  /** Once a node has raised, the nodes after it change nothing. */
  lemma {:induction false} NodesErrStays(nodes: seq<JValue>, p: nat)
    requires p <= |nodes| && NodesUris(nodes[..p]).Err?
    ensures NodesUris(nodes) == NodesUris(nodes[..p])
    decreases |nodes| - p
  {
    if p < |nodes| {
      var shorter := nodes[..|nodes| - 1];
      assert shorter[..p] == nodes[..p];
      NodesErrStays(shorter, p);
    } else {
      assert nodes[..p] == nodes;
    }
  }

  /** A result without commas in its URIs splits back into them, in traversal order. */
  lemma VulnerableSoftwareSplits(config: JValue, nodes: seq<JValue>, uris: seq<JValue>)
    requires Lookup(config, "nodes") == Ok(JArr(nodes)) && NodesUris(nodes) == Ok(uris)
    requires |uris| > 0 && AllStrings(uris) && forall i :: 0 <= i < |uris| ==> ',' !in uris[i].s
    ensures VulnerableSoftware(config).Ok?
    ensures PyStr.Split(VulnerableSoftware(config).value, ',') == Texts(uris)
  {
    JoinStringsSplits(uris);
  }

  /** `get_vulnerable_software_list`: every node, every key of it, every entry of that key's list. */
  method GetVulnerableSoftwareList(config: JValue) returns (r: Result<string>)
    ensures r == VulnerableSoftware(config)
  {
    var nodesValue := Lookup(config, "nodes");
    if nodesValue.Err? {
      return Err(nodesValue.error);
    }
    var nodes := Iterate(nodesValue.value);
    if nodes.Err? {
      return Err(nodes.error);
    }
    var found: seq<JValue> := [];
    for i := 0 to |nodes.value|
      invariant NodesUris(nodes.value[..i]) == Ok(found)
    {
      var node := nodes.value[i];
      assert nodes.value[..i + 1][..i] == nodes.value[..i];
      var keys := Keys(node);
      if keys.Err? {
        NodesErrStays(nodes.value, i + 1);
        return Err(keys.error);
      }
      var here := CollectKeys(node, keys.value);
      found := found + here;
    }
    assert nodes.value[..|nodes.value|] == nodes.value;
    r := JoinStrings(found, ",");
  }

  /** `for cpes in node.keys()`: each key's list is walked inside its own `try`. */
  method CollectKeys(node: JValue, keys: seq<string>) returns (found: seq<JValue>)
    ensures found == KeysUris(node, keys)
  {
    found := [];
    for j := 0 to |keys|
      invariant found == KeysUris(node, keys[..j])
    {
      assert keys[..j + 1][..j] == keys[..j];
      var got: seq<JValue> := [];
      var value := Lookup(node, keys[j]);
      if value.Ok? {
        var entries := Iterate(value.value);
        if entries.Ok? {
          got := CollectEntries(entries.value);
        }
      }
      found := found + got;
    }
    assert keys[..|keys|] == keys;
  }

  /** The `try` around `for cpe in node[cpes]`: an exception ends the list and keeps what was appended. */
  method CollectEntries(entries: seq<JValue>) returns (found: seq<JValue>)
    ensures found == WalkEntries(entries).uris
  {
    found := [];
    var k := 0;
    while k < |entries|
      invariant 0 <= k <= |entries|
      invariant !WalkEntries(entries[..k]).raised
      invariant found == WalkEntries(entries[..k]).uris
    {
      var cpe := entries[k];
      WalkPrefixStep(entries, k);
      if cpe.JObj? {
        var vulnerable := Lookup(cpe, "vulnerable");
        if vulnerable.Err? {
          WalkRaisedStays(entries, k + 1);
          return;
        }
        if EqualsTrue(vulnerable.value) {
          var uri := Lookup(cpe, "cpe23Uri");
          if uri.Err? {
            WalkRaisedStays(entries, k + 1);
            return;
          }
          found := found + [uri.value];
        }
      }
      k := k + 1;
    }
    assert entries[..k] == entries;
  }

  // ---------------------------------------------------------------------
  // get_data
  // ---------------------------------------------------------------------

  const IdPath: seq<string> := ["cve", "CVE_data_meta", "ID"]
  const DescriptionPath: seq<string> := ["cve", "description", "description_data"]
  const ReferencesPath: seq<string> := ["cve", "references", "reference_data"]
  const CvssPath: seq<string> := ["impact", "baseMetricV2", "cvssV2"]

  /** The score used when the CVSS v2 base score cannot be read: the float 0.0. */
  const ZeroScore := JNum(Float("0.0"))
  /** The value used for every other CVSS v2 field that cannot be read. */
  const Blank := JStr("")

  /** `json.dumps(cve['configurations'])`, kept as the value it serialises, or `''` when the key is missing. */
  datatype Configuration = Serialized(config: JValue) | NoConfiguration

  /** The joined URI list, or the empty Python list `[]` used when it cannot be computed. */
  datatype SoftwareList = Joined(text: string) | EmptyList

  /** The columns of an `nvd` row other than `id` and `cve_id`, in the order of the insert statement. */
  datatype NvdColumns = NvdColumns(
    summary: string, config: Configuration, vulnerableSoftware: SoftwareList, score: JValue,
    accessVector: JValue, accessComplexity: JValue, authorize: JValue,
    confidentialityImpact: JValue, integrityImpact: JValue, availabilityImpact: JValue,
    published: JValue, lastModified: JValue, urls: string)

  /** What get_data returns: the CVE id, the `nvd` columns, and the item itself for `nvd_json`. */
  datatype CveRecord = CveRecord(cveId: JValue, columns: NvdColumns, cveJson: JValue)

  /** `blob['value']`, which `+=` onto a string only when it is a string. */
  function BlobText(blob: JValue): Result<string>
  {
    var value :- Lookup(blob, "value");
    if value.JStr? then Ok(value.s) else Err(TypeError)
  }

  /** The description loop: the texts concatenated with no separator; the first failure escapes. */
  function Description(blobs: seq<JValue>): Result<string>
  {
    if |blobs| == 0 then Ok("")
    else
      var before :- Description(blobs[..|blobs| - 1]);
      var text :- BlobText(blobs[|blobs| - 1]);
      Ok(before + text)
  }

  /** The description of a CVE item: its blobs are read and iterated outside any `try`. */
  function DescriptionOf(cve: JValue): Result<string>
  {
    var blobsValue :- Path(cve, DescriptionPath);
    var blobs :- Iterate(blobsValue);
    Description(blobs)
  }

  lemma {:induction false} DescriptionErrStays(blobs: seq<JValue>, p: nat)
    requires p <= |blobs| && Description(blobs[..p]).Err?
    ensures Description(blobs) == Description(blobs[..p])
    decreases |blobs| - p
  {
    if p < |blobs| {
      var shorter := blobs[..|blobs| - 1];
      assert shorter[..p] == blobs[..p];
      DescriptionErrStays(shorter, p);
    } else {
      assert blobs[..p] == blobs;
    }
  }

  /** The description of two runs of blobs is the first's followed by the second's; the first failure wins. */
  lemma {:induction false} DescriptionConcat(a: seq<JValue>, b: seq<JValue>)
    ensures Description(a + b) ==
      match Description(a)
      case Err(e) => Err(e)
      case Ok(da) => (match Description(b) case Err(e) => Err(e) case Ok(db) => Ok(da + db))
  {
    if |b| == 0 {
      assert a + b == a;
      if Description(a).Ok? {
        assert Description(a).value + "" == Description(a).value;
      }
    } else {
      var b' := b[..|b| - 1];
      DescriptionConcat(a, b');
      assert (a + b)[..|a + b| - 1] == a + b';
      assert (a + b)[|a + b| - 1] == b[|b| - 1];
      if Description(a).Ok? && Description(b').Ok? && BlobText(b[|b| - 1]).Ok? {
        AppendAssoc(Description(a).value, Description(b').value, BlobText(b[|b| - 1]).value);
      }
    }
  }

  /** The description succeeds exactly when every blob has a string `value`. */
  lemma {:induction false} DescriptionOkIff(blobs: seq<JValue>)
    ensures Description(blobs).Ok? <==> forall i :: 0 <= i < |blobs| ==> BlobText(blobs[i]).Ok?
  {
    if |blobs| > 0 {
      var prefix := blobs[..|blobs| - 1];
      DescriptionOkIff(prefix);
      assert forall i :: 0 <= i < |blobs| - 1 ==> prefix[i] == blobs[i];
    }
  }

  /** `cve['impact']['baseMetricV2']['cvssV2'][name]`, or `default` when any step fails. */
  function CvssField(cve: JValue, name: string, default: JValue): JValue
  {
    match Path(cve, CvssPath + [name])
    case Ok(v) => v
    case Err(_) => default
  }

  /** `item['url']` for every reference; the first failure escapes the loop. */
  function ReferenceUrls(items: seq<JValue>): Result<seq<JValue>>
  {
    if |items| == 0 then Ok([])
    else
      var before :- ReferenceUrls(items[..|items| - 1]);
      var url :- Lookup(items[|items| - 1], "url");
      Ok(before + [url])
  }

  /** The body of the references `try`. */
  function ReferencesText(cve: JValue): Result<string>
  {
    var refValue :- Path(cve, ReferencesPath);
    var items :- Iterate(refValue);
    var urls :- ReferenceUrls(items);
    JoinStrings(urls, ",")
  }

  /** The `urls` column: the comma-joined URLs, or `''` if anything in the `try` failed. */
  function References(cve: JValue): string
  {
    match ReferencesText(cve)
    case Ok(text) => text
    case Err(_) => ""
  }

  lemma {:induction false} ReferenceUrlsErrStays(items: seq<JValue>, p: nat)
    requires p <= |items| && ReferenceUrls(items[..p]).Err?
    ensures ReferenceUrls(items) == ReferenceUrls(items[..p])
    decreases |items| - p
  {
    if p < |items| {
      var shorter := items[..|items| - 1];
      assert shorter[..p] == items[..p];
      ReferenceUrlsErrStays(shorter, p);
    } else {
      assert items[..p] == items;
    }
  }

  /** The URLs are read exactly when every reference has one, and then they are those URLs in order. */
  lemma {:induction false} ReferenceUrlsSpec(items: seq<JValue>)
    ensures ReferenceUrls(items).Ok? <==> forall i :: 0 <= i < |items| ==> Lookup(items[i], "url").Ok?
    ensures ReferenceUrls(items).Ok? ==>
      |ReferenceUrls(items).value| == |items| &&
      forall i :: 0 <= i < |items| ==> ReferenceUrls(items).value[i] == Lookup(items[i], "url").value
  {
    if |items| > 0 {
      var prefix := items[..|items| - 1];
      ReferenceUrlsSpec(prefix);
      assert forall i :: 0 <= i < |items| - 1 ==> prefix[i] == items[i];
    }
  }

  /** get_data(cve): the mandatory fields in the order they are read, then the optional ones with their defaults. */
  function CveRecordOf(cve: JValue): Result<CveRecord>
  {
    var cveId :- Path(cve, IdPath);
    var published :- Lookup(cve, "publishedDate");
    var modified :- Lookup(cve, "lastModifiedDate");
    var summary :- DescriptionOf(cve);
    var config := match Lookup(cve, "configurations") case Ok(c) => Serialized(c) case Err(_) => NoConfiguration;
    var software :=
      match config
      case NoConfiguration => EmptyList
      case Serialized(c) => (match VulnerableSoftware(c) case Ok(s) => Joined(s) case Err(_) => EmptyList);
    Ok(CveRecord(cveId,
      NvdColumns(summary, config, software, CvssField(cve, "baseScore", ZeroScore),
                 CvssField(cve, "accessVector", Blank), CvssField(cve, "accessComplexity", Blank),
                 CvssField(cve, "authentication", Blank), CvssField(cve, "confidentialityImpact", Blank),
                 CvssField(cve, "integrityImpact", Blank), CvssField(cve, "availabilityImpact", Blank),
                 published, modified, References(cve)),
      cve))
  }

  method GetData(cve: JValue) returns (r: Result<CveRecord>)
    ensures r == CveRecordOf(cve)
  {
    var cveId := Path(cve, IdPath);
    if cveId.Err? {
      return Err(cveId.error);
    }
    var published := Lookup(cve, "publishedDate");
    if published.Err? {
      return Err(published.error);
    }
    var modified := Lookup(cve, "lastModifiedDate");
    if modified.Err? {
      return Err(modified.error);
    }
    var blobsValue := Path(cve, DescriptionPath);
    if blobsValue.Err? {
      return Err(blobsValue.error);
    }
    var blobs := Iterate(blobsValue.value);
    if blobs.Err? {
      return Err(blobs.error);
    }
    var description := "";
    for i := 0 to |blobs.value|
      invariant Description(blobs.value[..i]) == Ok(description)
    {
      assert blobs.value[..i + 1][..i] == blobs.value[..i];
      var value := Lookup(blobs.value[i], "value");
      if value.Err? || !value.value.JStr? {
        DescriptionErrStays(blobs.value, i + 1);
        return Err(if value.Err? then value.error else TypeError);
      }
      description := description + value.value.s;
    }
    assert blobs.value[..|blobs.value|] == blobs.value;

    var configuration := NoConfiguration;
    var configValue := Lookup(cve, "configurations");
    if configValue.Ok? {
      configuration := Serialized(configValue.value);
    }
    var software := EmptyList;
    if configuration.Serialized? {
      var list := GetVulnerableSoftwareList(configuration.config);
      if list.Ok? {
        software := Joined(list.value);
      }
    }
    var urls := GetReferences(cve);
    r := Ok(CveRecord(cveId.value,
      NvdColumns(description, configuration, software, CvssField(cve, "baseScore", ZeroScore),
                 CvssField(cve, "accessVector", Blank), CvssField(cve, "accessComplexity", Blank),
                 CvssField(cve, "authentication", Blank), CvssField(cve, "confidentialityImpact", Blank),
                 CvssField(cve, "integrityImpact", Blank), CvssField(cve, "availabilityImpact", Blank),
                 published.value, modified.value, urls),
      cve));
  }

  /** The references `try` of get_data: collect every `url`, then join them with commas. */
  method GetReferences(cve: JValue) returns (urls: string)
    ensures urls == References(cve)
  {
    urls := "";
    var refValue := Path(cve, ReferencesPath);
    if refValue.Err? {
      return;
    }
    var items := Iterate(refValue.value);
    if items.Err? {
      return;
    }
    var collected: seq<JValue> := [];
    var i := 0;
    while i < |items.value|
      invariant 0 <= i <= |items.value|
      invariant ReferenceUrls(items.value[..i]) == Ok(collected)
    {
      assert items.value[..i + 1][..i] == items.value[..i];
      var url := Lookup(items.value[i], "url");
      if url.Err? {
        ReferenceUrlsErrStays(items.value, i + 1);
        return;
      }
      collected := collected + [url.value];
      i := i + 1;
    }
    assert items.value[..i] == items.value;
    var joined := JoinStrings(collected, ",");
    if joined.Ok? {
      urls := joined.value;
    }
  }

  // ---------------------------------------------------------------------
  // Properties of get_data
  // ---------------------------------------------------------------------

  /**
   * Only the mandatory fields can make get_data raise: the CVE id, both dates
   * and the description; every other field has a default.
   */
  lemma OnlyMandatoryFieldsFail(cve: JValue)
    ensures CveRecordOf(cve).Ok? <==>
      && Path(cve, IdPath).Ok? && Lookup(cve, "publishedDate").Ok? && Lookup(cve, "lastModifiedDate").Ok?
      && DescriptionOf(cve).Ok?
  {
  }

  /** A blob without a string `value` makes get_data raise, whatever the other fields hold. */
  lemma BadBlobFails(cve: JValue, blobs: seq<JValue>, k: nat)
    requires Path(cve, DescriptionPath) == Ok(JArr(blobs))
    requires k < |blobs| && BlobText(blobs[k]).Err?
    ensures CveRecordOf(cve).Err?
  {
    DescriptionOkIff(blobs);
  }

  /** The id, the dates and the item itself reach the record unchanged, and the summary is the description. */
  lemma RecordKeepsMandatoryValues(cve: JValue)
    requires CveRecordOf(cve).Ok?
    ensures var rec := CveRecordOf(cve).value;
      && rec.cveId == Path(cve, IdPath).value
      && rec.columns.published == Lookup(cve, "publishedDate").value
      && rec.columns.lastModified == Lookup(cve, "lastModifiedDate").value
      && rec.columns.summary == DescriptionOf(cve).value
      && rec.cveJson == cve
  {
  }

  /** Without `impact.baseMetricV2.cvssV2` the score is 0.0 and the six other CVSS columns are `''`. */
  lemma MissingCvssDefaults(cve: JValue)
    requires CveRecordOf(cve).Ok? && Path(cve, CvssPath).Err?
    ensures var c := CveRecordOf(cve).value.columns;
      && c.score == ZeroScore && c.accessVector == Blank && c.accessComplexity == Blank
      && c.authorize == Blank && c.confidentialityImpact == Blank && c.integrityImpact == Blank
      && c.availabilityImpact == Blank
  {
    PathAppend(cve, CvssPath, ["baseScore"]);
    PathAppend(cve, CvssPath, ["accessVector"]);
    PathAppend(cve, CvssPath, ["accessComplexity"]);
    PathAppend(cve, CvssPath, ["authentication"]);
    PathAppend(cve, CvssPath, ["confidentialityImpact"]);
    PathAppend(cve, CvssPath, ["integrityImpact"]);
    PathAppend(cve, CvssPath, ["availabilityImpact"]);
  }

  /** With a `cvssV2` value present, each CVSS column is read from it on its own, and only a missing one takes its default. */
  lemma CvssFieldsIndependent(cve: JValue, cvss: JValue, name: string, default: JValue)
    requires Path(cve, CvssPath) == Ok(cvss)
    ensures CvssField(cve, name, default) == (match Lookup(cvss, name) case Ok(v) => v case Err(_) => default)
  {
    PathAppend(cve, CvssPath, [name]);
    assert [name][1..] == [];
  }

  /** Without `configurations` the configuration is `''` and the vulnerable list is `[]`. */
  lemma MissingConfigurationDefaults(cve: JValue)
    requires CveRecordOf(cve).Ok? && Lookup(cve, "configurations").Err?
    ensures CveRecordOf(cve).value.columns.config == NoConfiguration
    ensures CveRecordOf(cve).value.columns.vulnerableSoftware == EmptyList
  {
  }

  /** With `configurations`, the vulnerable list is get_vulnerable_software_list's result, or `[]` when that raises. */
  lemma ConfigurationSoftware(cve: JValue, config: JValue)
    requires CveRecordOf(cve).Ok? && Lookup(cve, "configurations") == Ok(config)
    ensures CveRecordOf(cve).value.columns.config == Serialized(config)
    ensures VulnerableSoftware(config).Ok? ==>
      CveRecordOf(cve).value.columns.vulnerableSoftware == Joined(VulnerableSoftware(config).value)
    ensures VulnerableSoftware(config).Err? ==> CveRecordOf(cve).value.columns.vulnerableSoftware == EmptyList
  {
  }

  /** One reference without a `url` empties the whole `urls` column. */
  lemma ReferencesAllOrNothing(cve: JValue, items: seq<JValue>, k: nat)
    requires Path(cve, ReferencesPath) == Ok(JArr(items))
    requires k < |items| && Lookup(items[k], "url").Err?
    ensures References(cve) == ""
  {
    ReferenceUrlsSpec(items);
  }

  /** When every reference has a comma-free string `url`, the `urls` column splits back into those URLs, in order. */
  lemma ReferencesSplit(cve: JValue, items: seq<JValue>)
    requires Path(cve, ReferencesPath) == Ok(JArr(items)) && |items| > 0
    requires forall i :: 0 <= i < |items| ==> Lookup(items[i], "url").Ok? && Lookup(items[i], "url").value.JStr?
    requires forall i :: 0 <= i < |items| ==> ',' !in Lookup(items[i], "url").value.s
    ensures PyStr.Split(References(cve), ',') ==
      seq(|items|, i requires 0 <= i < |items| => Lookup(items[i], "url").value.s)
  {
    ReferenceUrlsSpec(items);
    var urls := ReferenceUrls(items).value;
    JoinStringsSplits(urls);
    assert Texts(urls) == seq(|items|, i requires 0 <= i < |items| => Lookup(items[i], "url").value.s);
  }
}
