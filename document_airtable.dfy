/** The document table: how an Airtable record becomes a document dictionary, the
    per-vendor filter over the table's records, and what the service returns in mock
    mode (no table). The Airtable client, `json.loads`, `hash` and the clock are
    parameters. */
module DocumentAirtable {
  import opened Wrappers
  import opened Strings
  import opened Json

  /** An Airtable record: its id (absent is `None`) and its fields. */
  datatype AirtableRecord = AirtableRecord(id: Option<string>, fields: map<string, JsonValue>)

  /** The dictionary `_map_record_to_document` returns, one member per key. */
  datatype MappedDocument = MappedDocument(
    id: JsonValue,
    vendorId: JsonValue,
    filename: JsonValue,
    fileType: JsonValue,
    documentType: JsonValue,
    fileSize: JsonValue,
    fileUrl: JsonValue,
    uploadDate: JsonValue,
    analysisStatus: JsonValue,
    riskScore: JsonValue,
    riskLevel: JsonValue,
    findings: JsonValue,
    recommendations: JsonValue)

  /** A list-valued text field: `None` when missing or falsy; otherwise its decoded
      value, or, when decoding raises (bad JSON, or a value that is not a string), a
      one-item list holding the raw value. */
  function ListField(fields: map<string, JsonValue>, key: string, parse: Parser): (r: JsonValue)
    ensures key !in fields || !Truthy(fields[key]) ==> r == JNull
    ensures key in fields && Truthy(fields[key]) && fields[key].JStr? && parse(fields[key].s).Success? ==>
      r == parse(fields[key].s).value
    ensures key in fields && Truthy(fields[key]) && !(fields[key].JStr? && parse(fields[key].s).Success?) ==>
      r == JList([fields[key]])
  {
    var v := Get(fields, key, JNull);
    if !Truthy(v) then JNull
    else if v.JStr? && parse(v.s).Success? then parse(v.s).value
    else JList([v])
  }

  /** The vendor of a record: the first link of a non-empty list, the value itself when it
      is not a list, and `None` when missing or falsy. */
  function VendorOf(fields: map<string, JsonValue>): (r: JsonValue)
    ensures "Vendor" in fields && Truthy(fields["Vendor"]) && fields["Vendor"].JList? ==>
      r == fields["Vendor"].items[0]
    ensures "Vendor" in fields && Truthy(fields["Vendor"]) && !fields["Vendor"].JList? ==> r == fields["Vendor"]
    ensures "Vendor" !in fields || !Truthy(fields["Vendor"]) ==> r == JNull
  {
    var v := Get(fields, "Vendor", JNull);
    if !Truthy(v) then JNull
    else if v.JList? then v.items[0]
    else v
  }

  /** `_map_record_to_document`: `now` is the ISO text of the current time, used when
      the record has no upload date. */
  function MapRecord(rec: AirtableRecord, parse: Parser, now: string): (d: MappedDocument)
    ensures d.id == (if rec.id.Some? then JStr(rec.id.value) else JNull)
    ensures d.vendorId == VendorOf(rec.fields)
    ensures d.findings == ListField(rec.fields, "Findings", parse)
    ensures d.recommendations == ListField(rec.fields, "Recommendations", parse)
    ensures d.filename == (if "Filename" in rec.fields then rec.fields["Filename"] else JStr("Unknown"))
    ensures d.uploadDate == (if "Upload Date" in rec.fields then rec.fields["Upload Date"] else JStr(now))
    ensures d.fileType == (if "File Type" in rec.fields then rec.fields["File Type"] else JStr("unknown"))
    ensures d.documentType == (if "Document Type" in rec.fields then rec.fields["Document Type"] else JStr("General"))
    ensures d.fileSize == (if "File Size" in rec.fields then rec.fields["File Size"] else JInt(0))
    ensures d.fileUrl == (if "File URL" in rec.fields then rec.fields["File URL"] else JStr(""))
    ensures d.analysisStatus == (if "Analysis Status" in rec.fields then rec.fields["Analysis Status"] else JStr("Not Analyzed"))
    ensures d.riskScore == (if "Risk Score" in rec.fields then rec.fields["Risk Score"] else JNull)
    ensures d.riskLevel == (if "Risk Level" in rec.fields then rec.fields["Risk Level"] else JNull)
  {
    var f := rec.fields;
    MappedDocument(
      if rec.id.Some? then JStr(rec.id.value) else JNull,
      VendorOf(f),
      Get(f, "Filename", JStr("Unknown")),
      Get(f, "File Type", JStr("unknown")),
      Get(f, "Document Type", JStr("General")),
      Get(f, "File Size", JInt(0)),
      Get(f, "File URL", JStr("")),
      Get(f, "Upload Date", JStr(now)),
      Get(f, "Analysis Status", JStr("Not Analyzed")),
      Get(f, "Risk Score", JNull),
      Get(f, "Risk Level", JNull),
      ListField(f, "Findings", parse),
      ListField(f, "Recommendations", parse))
  }

  /** A record with no fields at all maps to the documented defaults. */
  lemma EmptyRecordDefaults(id: Option<string>, parse: Parser, now: string)
    ensures MapRecord(AirtableRecord(id, map[]), parse, now) == MappedDocument(
      if id.Some? then JStr(id.value) else JNull, JNull,
      JStr("Unknown"), JStr("unknown"), JStr("General"), JInt(0), JStr(""), JStr(now),
      JStr("Not Analyzed"), JNull, JNull, JNull, JNull)
  {
  }

  /** Every field present in the record is copied as it is. */
  lemma PresentFieldsCopied(rec: AirtableRecord, parse: Parser, now: string)
    ensures var d := MapRecord(rec, parse, now);
      ("File Type" in rec.fields ==> d.fileType == rec.fields["File Type"]) &&
      ("Document Type" in rec.fields ==> d.documentType == rec.fields["Document Type"]) &&
      ("File Size" in rec.fields ==> d.fileSize == rec.fields["File Size"]) &&
      ("File URL" in rec.fields ==> d.fileUrl == rec.fields["File URL"]) &&
      ("Analysis Status" in rec.fields ==> d.analysisStatus == rec.fields["Analysis Status"]) &&
      ("Risk Score" in rec.fields ==> d.riskScore == rec.fields["Risk Score"]) &&
      ("Risk Level" in rec.fields ==> d.riskLevel == rec.fields["Risk Level"])
  {
  }

  /** Text that does not decode is kept as the single item of a list. */
  lemma UndecodableTextKept(fields: map<string, JsonValue>, key: string, text: string, parse: Parser)
    requires key in fields && fields[key] == JStr(text) && text != "" && parse(text).Failure?
    ensures ListField(fields, key, parse) == JList([JStr(text)])
  {
  }

  // ---------------------------------------------------------------------------
  // get_vendor_documents
  // ---------------------------------------------------------------------------

  /** A record belongs to the vendor when its "Vendor" field is a list holding the id. */
  predicate LinksVendor(rec: AirtableRecord, vendorId: string): (b: bool)
    ensures b <==> ("Vendor" in rec.fields && rec.fields["Vendor"].JList? &&
      exists i :: 0 <= i < |rec.fields["Vendor"].items| && rec.fields["Vendor"].items[i] == JStr(vendorId))
  {
    var links := Get(rec.fields, "Vendor", JList([]));
    links.JList? && JStr(vendorId) in links.items
  }

  /** The documents of the vendor among `records`, in table order. */
  function VendorDocuments(records: seq<AirtableRecord>, vendorId: string, parse: Parser, now: string)
    : (r: seq<MappedDocument>)
    ensures |r| <= |records|
  {
    if records == [] then []
    else
      var init := VendorDocuments(records[..|records| - 1], vendorId, parse, now);
      var last := records[|records| - 1];
      if LinksVendor(last, vendorId) then init + [MapRecord(last, parse, now)] else init
  }

  /** `get_vendor_documents`: no table (mock mode) and a failed fetch both give the empty
      list; otherwise the filter over the fetched records. */
  method GetVendorDocuments(
    mock: bool, fetched: Result<seq<AirtableRecord>, string>, vendorId: string, parse: Parser, now: string)
    returns (r: seq<MappedDocument>)
    ensures mock || fetched.Failure? ==> r == []
    ensures !mock && fetched.Success? ==> r == VendorDocuments(fetched.value, vendorId, parse, now)
  {
    if mock {
      return [];
    }
    if fetched.Failure? {
      return [];
    }
    var records := fetched.value;
    r := [];
    var i := 0;
    while i < |records|
      invariant 0 <= i <= |records|
      invariant r == VendorDocuments(records[..i], vendorId, parse, now)
    {
      assert records[..i + 1][..i] == records[..i];
      var links := Get(records[i].fields, "Vendor", JList([]));
      if links.JList? && JStr(vendorId) in links.items {
        r := r + [MapRecord(records[i], parse, now)];
      }
      i := i + 1;
    }
    assert records[..i] == records;
  }

  /** The filter distributes over concatenation, so it keeps the table order. */
  lemma {:induction false} VendorDocumentsAppend(
    a: seq<AirtableRecord>, b: seq<AirtableRecord>, vendorId: string, parse: Parser, now: string)
    ensures VendorDocuments(a + b, vendorId, parse, now) ==
      VendorDocuments(a, vendorId, parse, now) + VendorDocuments(b, vendorId, parse, now)
    decreases |b|
  {
    if b == [] {
      assert a + b == a;
    } else {
      var b' := b[..|b| - 1];
      assert (a + b)[..|a + b| - 1] == a + b';
      assert (a + b)[|a + b| - 1] == b[|b| - 1];
      VendorDocumentsAppend(a, b', vendorId, parse, now);
    }
  }

  /** One record is kept, mapped, exactly when it links the vendor. */
  lemma VendorDocumentsSingle(rec: AirtableRecord, vendorId: string, parse: Parser, now: string)
    ensures VendorDocuments([rec], vendorId, parse, now) ==
      (if LinksVendor(rec, vendorId) then [MapRecord(rec, parse, now)] else [])
  {
    assert [rec][..0] == [];
  }

  /** Every record that links the vendor is kept and every one that does not is dropped,
      so the result is exactly the mapped matching records, in order. */
  lemma {:induction false} VendorDocumentsExact(records: seq<AirtableRecord>, vendorId: string, parse: Parser, now: string)
    ensures VendorDocuments(records, vendorId, parse, now) ==
      MapAll(Matching(records, vendorId), parse, now)
  {
    if records != [] {
      var init := records[..|records| - 1];
      VendorDocumentsExact(init, vendorId, parse, now);
      MatchingAppend(init, [records[|records| - 1]], vendorId);
      assert init + [records[|records| - 1]] == records;
      MapAllAppend(Matching(init, vendorId), Matching([records[|records| - 1]], vendorId), parse, now);
      assert [records[|records| - 1]][..0] == [];
    }
  }

  /** The records that link the vendor, in order. */
  function Matching(records: seq<AirtableRecord>, vendorId: string): (r: seq<AirtableRecord>)
    ensures forall k :: 0 <= k < |r| ==> LinksVendor(r[k], vendorId)
    ensures forall rec :: rec in records && LinksVendor(rec, vendorId) ==> rec in r
    ensures forall rec :: rec in r ==> rec in records
  {
    if records == [] then []
    else if LinksVendor(records[0], vendorId) then [records[0]] + Matching(records[1..], vendorId)
    else Matching(records[1..], vendorId)
  }

  function MapAll(records: seq<AirtableRecord>, parse: Parser, now: string): (r: seq<MappedDocument>)
    ensures |r| == |records|
    ensures forall k :: 0 <= k < |records| ==> r[k] == MapRecord(records[k], parse, now)
  {
    seq(|records|, k requires 0 <= k < |records| => MapRecord(records[k], parse, now))
  }

  lemma {:induction false} MatchingAppend(a: seq<AirtableRecord>, b: seq<AirtableRecord>, vendorId: string)
    ensures Matching(a + b, vendorId) == Matching(a, vendorId) + Matching(b, vendorId)
  {
    if a == [] {
      assert a + b == b;
    } else {
      assert (a + b)[0] == a[0];
      assert (a + b)[1..] == a[1..] + b;
      MatchingAppend(a[1..], b, vendorId);
    }
  }

  lemma MapAllAppend(a: seq<AirtableRecord>, b: seq<AirtableRecord>, parse: Parser, now: string)
    ensures MapAll(a + b, parse, now) == MapAll(a, parse, now) + MapAll(b, parse, now)
  {
  }

  // ---------------------------------------------------------------------------
  // Mock-mode writes
  // ---------------------------------------------------------------------------

  /** `create_document` without a table. `hash` stands for Python's string hash; a
      missing "filename" raises KeyError, which is `None`. The given data override the
      generated id, and the upload date and status override the data. */
  function MockCreateDocument(data: map<string, JsonValue>, hash: JsonValue -> int, now: string)
    : (r: Option<map<string, JsonValue>>)
    ensures r.None? <==> "filename" !in data
    ensures r.Some? ==> r.value.Keys == data.Keys + {"id", "upload_date", "analysis_status"}
    ensures r.Some? ==> r.value["analysis_status"] == JStr("Not Analyzed")
    ensures r.Some? ==> r.value["upload_date"] == JStr(now)
    ensures r.Some? ==> forall k :: k in data && k !in {"id", "upload_date", "analysis_status"} ==> r.value[k] == data[k]
    ensures r.Some? && "id" in data ==> r.value["id"] == data["id"]
  {
    if "filename" !in data then None
    else
      var mockId := "recMockDoc" + IntToString(hash(data["filename"]) % 10000);
      Some((map["id" := JStr(mockId)] + data)["upload_date" := JStr(now)]["analysis_status" := JStr("Not Analyzed")])
  }

  /** Without an "id" of its own, a created document's id is "recMockDoc" followed by
      the hash reduced into 0..9999. */
  lemma MockIdFromHash(data: map<string, JsonValue>, hash: JsonValue -> int, now: string)
    requires "filename" in data && "id" !in data
    ensures MockCreateDocument(data, hash, now).value["id"] ==
      JStr("recMockDoc" + IntToString(hash(data["filename"]) % 10000))
    ensures 0 <= hash(data["filename"]) % 10000 < 10000
  {
  }

  /** `update_document_analysis` without a table: the id and status "Completed", both
      overridden by the analysis result when it has those keys. */
  function MockUpdateDocument(documentId: string, analysis: map<string, JsonValue>): (r: map<string, JsonValue>)
    ensures r.Keys == analysis.Keys + {"id", "analysis_status"}
    ensures forall k :: k in analysis ==> r[k] == analysis[k]
    ensures "id" !in analysis ==> r["id"] == JStr(documentId)
    ensures "analysis_status" !in analysis ==> r["analysis_status"] == JStr("Completed")
  {
    map["id" := JStr(documentId), "analysis_status" := JStr("Completed")] + analysis
  }
}
