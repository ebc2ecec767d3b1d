/** The batch driver: each discovered annotation document is parsed and its
    slices exported; a document that fails to parse contributes nothing and
    does not stop the others; the manifest collects every document's rows. */
module Pipeline {
  import opened Wrappers
  import opened Contours
  import opened Selection
  import opened Geometry
  import opened Loader
  import opened Slices
  import opened Export

  /** A discovered XML file: its base name, its parsed content and the
      DICOM files found in its directory. */
  datatype XmlDocument = XmlDocument(fileName: string, tree: Document, pixels: PixelSource)

  /** What processing one document yields. */
  datatype DocumentOutcome = Processed(exports: seq<SliceExport>) | Failed(error: ParseError)

  const PatientPrefix: string := "LIDC-IDRI-"

  /** The part of `s` before its first `.` (all of `s` when it has none). */
  function BeforeFirstDot(s: string): (r: string)
    ensures r <= s
    ensures '.' !in r
    ensures |r| == |s| || s[|r|] == '.'
  {
    if |s| == 0 || s[0] == '.' then [] else [s[0]] + BeforeFirstDot(s[1..])
  }

  /** The patient identifier derived from a document's base name: the fixed
      prefix followed by the name up to its first dot. */
  function PatientId(fileName: string): (r: string)
    ensures |r| >= |PatientPrefix| && r[..|PatientPrefix|] == PatientPrefix
    ensures r[|PatientPrefix|..] <= fileName && '.' !in r[|PatientPrefix|..]
    ensures |r| - |PatientPrefix| == |fileName| || fileName[|r| - |PatientPrefix|] == '.'
  {
    var stem := BeforeFirstDot(fileName);
    assert (PatientPrefix + stem)[|PatientPrefix|..] == stem;
    PatientPrefix + stem
  }

  lemma PatientIdExample()
    ensures PatientId("0001.xml") == "LIDC-IDRI-0001"
  {
    assert BeforeFirstDot("0001.xml") == "0001" by {
      assert "0001.xml"[1..] == "001.xml";
      assert "001.xml"[1..] == "01.xml";
      assert "01.xml"[1..] == "1.xml";
      assert "1.xml"[1..] == ".xml";
    }
  }

  /** Parse, then export under the document's patient identifier; a parse
      failure stops this document before anything is exported. */
  function ProcessDocument(d: XmlDocument): DocumentOutcome
  {
    match ParseDocument(d.tree)
    case Failure(e) => Failed(e)
    case Success(slices) => Processed(ExportDocument(PatientId(d.fileName), slices, d.pixels))
  }

  /** The manifest rows one document adds. */
  function DocumentRows(d: XmlDocument): seq<ManifestRow>
  {
    match ProcessDocument(d)
    case Failed(_) => []
    case Processed(exports) => ManifestRows(exports)
  }

  /** The rows `rowsOf` gives each document, one document after another. */
  function ConcatMap<T>(rowsOf: T -> seq<ManifestRow>, docs: seq<T>): seq<ManifestRow>
  {
    if |docs| == 0 then [] else rowsOf(docs[0]) + ConcatMap(rowsOf, docs[1..])
  }

  lemma {:induction false} ConcatMapAppend<T>(rowsOf: T -> seq<ManifestRow>, d1: seq<T>, d2: seq<T>)
    ensures ConcatMap(rowsOf, d1 + d2) == ConcatMap(rowsOf, d1) + ConcatMap(rowsOf, d2)
  {
    if |d1| == 0 {
      assert d1 + d2 == d2;
    } else {
      assert (d1 + d2)[0] == d1[0];
      assert (d1 + d2)[1..] == d1[1..] + d2;
      ConcatMapAppend(rowsOf, d1[1..], d2);
    }
  }

  lemma ConcatMapSingle<T>(rowsOf: T -> seq<ManifestRow>, x: T)
    ensures ConcatMap(rowsOf, [x]) == rowsOf(x)
  {
    assert [x][1..] == [];
    assert ConcatMap(rowsOf, [x][1..]) == [];
  }

  /** The manifest's data rows after processing `docs` in order. */
  function BatchManifest(docs: seq<XmlDocument>): seq<ManifestRow>
  {
    ConcatMap(DocumentRows, docs)
  }

  /** Documents are processed independently: the manifest of two runs of
      documents is the first's rows followed by the second's. */
  lemma BatchManifestAppend(d1: seq<XmlDocument>, d2: seq<XmlDocument>)
    ensures BatchManifest(d1 + d2) == BatchManifest(d1) + BatchManifest(d2)
  {
    ConcatMapAppend(DocumentRows, d1, d2);
  }

  /** A batch of one document holds that document's rows. */
  lemma BatchManifestSingle(x: XmlDocument)
    ensures BatchManifest([x]) == DocumentRows(x)
  {
    ConcatMapSingle(DocumentRows, x);
  }

  /** A document that fails to parse adds no row and leaves the rest of the
      batch as if it were absent. */
  lemma FailedDocumentAddsNothing(d1: seq<XmlDocument>, x: XmlDocument, d2: seq<XmlDocument>)
    requires ProcessDocument(x).Failed?
    ensures BatchManifest(d1 + [x] + d2) == BatchManifest(d1 + d2)
  {
    BatchManifestAppend(d1 + [x], d2);
    BatchManifestAppend(d1, [x]);
    BatchManifestAppend(d1, d2);
    BatchManifestSingle(x);
  }

  /** A processed document's rows are the rows of its exports. */
  lemma DocumentRowsOfExports(d: XmlDocument, slices: seq<SliceRecord>)
    requires ParseDocument(d.tree) == Success(slices)
    ensures DocumentRows(d) == ManifestRows(ExportDocument(PatientId(d.fileName), slices, d.pixels))
  {
  }

  /** The rows a parsed document adds to the manifest follow the manifest
      rule under its patient identifier: one row `(patient, i + 1, UID)` per
      slice `i` that has a pixel source and exported, in slice order. */
  lemma DocumentManifest(d: XmlDocument, slices: seq<SliceRecord>)
    requires ParseDocument(d.tree) == Success(slices)
    ensures IsManifest(DocumentRows(d), PatientId(d.fileName), slices, d.pixels)
  {
    DocumentRowsOfExports(d, slices);
    ManifestRule(PatientId(d.fileName), slices, d.pixels);
  }

  /** The record written for each exported image of a processed document
      declares the nodule category alone and annotates exactly the first
      largest contour recorded for that image across all sessions. */
  lemma ExportedRecord(d: XmlDocument, slices: seq<SliceRecord>, k: int) returns (c: Contour, j: int)
    requires ParseDocument(d.tree) == Success(slices)
    requires 0 <= k < |ExportDocument(PatientId(d.fileName), slices, d.pixels)|
    ensures IsFirstMaximum(ContoursFor(Contributions(d.tree), ExportDocument(PatientId(d.fileName), slices, d.pixels)[k].row.uid), j)
    ensures c == ContoursFor(Contributions(d.tree), ExportDocument(PatientId(d.fileName), slices, d.pixels)[k].row.uid)[j]
    ensures |c| >= 3
    ensures ExportDocument(PatientId(d.fileName), slices, d.pixels)[k].coco.categories == [NoduleCategory]
    ensures ExportDocument(PatientId(d.fileName), slices, d.pixels)[k].coco.annotations == Annotations([Derive(c)])
  {
    var pid := PatientId(d.fileName);
    var i := ExportAt(pid, slices, d.pixels, k);
    j := ParsedSliceGeometry(d.tree, i);
    c := ContoursFor(Contributions(d.tree), slices[i].uid)[j];
  }
}
