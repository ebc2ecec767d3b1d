/** Per-image export of one document's slices: the COCO-style record written
    beside each image, the file names used, and the manifest rows. Reading
    pixels and writing files are not modelled; which images have a pixel
    source, and whose export fails, is given as data. */
module Export {
  import opened Contours
  import opened Geometry
  import opened Slices

  /** Shape of the decoded pixel array of one image. */
  datatype Dims = Dims(height: nat, width: nat)

  /** The DICOM files next to one document: the images that a lookup by UID
      finds (with their shapes), and the UIDs whose decoding or writing raises
      partway through the export. */
  datatype PixelSource = PixelSource(images: map<string, Dims>, failing: set<string>)

  /** The image was found and every export step for it completed. */
  predicate Exported(src: PixelSource, uid: string)
  {
    uid in src.images && uid !in src.failing
  }

  datatype Annotation = Annotation(
    id: nat, imageId: nat, categoryId: nat,
    segmentation: seq<seq<int>>, bbox: BBox, area: int, iscrowd: nat)

  datatype ImageInfo = ImageInfo(id: nat, fileName: string, height: nat, width: nat)

  datatype Category = Category(id: nat, name: string)

  datatype CocoDocument = CocoDocument(images: seq<ImageInfo>, annotations: seq<Annotation>, categories: seq<Category>)

  /** The single category every record declares. */
  const NoduleCategory := Category(1, "nodule")

  function MaskFileName(uid: string): string { uid + "_mask.png" }
  function OverlayFileName(uid: string): string { uid + "_overlay.png" }
  function ImageFileName(uid: string): string { uid + ".png" }
  function CocoFileName(uid: string): string { uid + ".json" }

  lemma SuffixCancels(u: string, v: string, suffix: string)
    requires u + suffix == v + suffix
    ensures u == v
  {
    assert |u| == |v|;
    assert u == (u + suffix)[..|u|];
    assert v == (v + suffix)[..|v|];
  }

  /** Each naming scheme is injective, so within one output directory two
      images of different UIDs never share a file; an image and its record
      never share a name. */
  lemma FileNamesDistinct(u: string, v: string)
    ensures MaskFileName(u) == MaskFileName(v) ==> u == v
    ensures OverlayFileName(u) == OverlayFileName(v) ==> u == v
    ensures ImageFileName(u) == ImageFileName(v) ==> u == v
    ensures CocoFileName(u) == CocoFileName(v) ==> u == v
    ensures ImageFileName(u) != CocoFileName(v)
  {
    if MaskFileName(u) == MaskFileName(v) { SuffixCancels(u, v, "_mask.png"); }
    if OverlayFileName(u) == OverlayFileName(v) { SuffixCancels(u, v, "_overlay.png"); }
    if ImageFileName(u) == ImageFileName(v) { SuffixCancels(u, v, ".png"); }
    if CocoFileName(u) == CocoFileName(v) { SuffixCancels(u, v, ".json"); }
    var a, b := ImageFileName(u), CocoFileName(v);
    assert a[|a| - 1] == 'g' && b[|b| - 1] == 'n';
  }

  /** One annotation per nodule, numbered from 1 in order, each on the single
      image of the record and in the nodule category, carrying the nodule's
      flat point list as its only polygon and its box and area unchanged. */
  function Annotations(nodules: seq<NoduleGeometry>): (r: seq<Annotation>)
    ensures |r| == |nodules|
    ensures forall i :: 0 <= i < |r| ==>
      && r[i].id == i + 1 && r[i].imageId == 1 && r[i].categoryId == NoduleCategory.id && r[i].iscrowd == 0
      && r[i].segmentation == [nodules[i].segmentation]
      && r[i].bbox == nodules[i].bbox && r[i].area == nodules[i].area
  {
    if |nodules| == 0 then []
    else
      var rest := Annotations(nodules[..|nodules| - 1]);
      var n := nodules[|nodules| - 1];
      rest + [Annotation(|nodules|, 1, NoduleCategory.id, [n.segmentation], n.bbox, n.area, 0)]
  }

  /** The annotation of a slice's single nodule outlined by `c`: numbered 1,
      on image 1, in the nodule category, not a crowd; its one polygon is the
      outline's points flattened in order, its box encloses every point and
      its area is the box's width times height. */
  lemma NoduleAnnotation(c: Contour) returns (a: Annotation)
    requires |c| > 0
    ensures Annotations([Derive(c)]) == [a]
    ensures a.id == 1 && a.imageId == 1 && a.categoryId == NoduleCategory.id && a.iscrowd == 0
    ensures |a.segmentation| == 1 && |a.segmentation[0]| == 2 * |c| && Pairs(a.segmentation[0]) == c
    ensures a.area == a.bbox.w * a.bbox.h
    ensures forall p :: p in c ==> a.bbox.x <= p.0 <= a.bbox.x + a.bbox.w
    ensures forall p :: p in c ==> a.bbox.y <= p.1 <= a.bbox.y + a.bbox.h
  {
    var g := Derive(c);
    a := Annotations([g])[0];
    forall p | p in c ensures a.bbox.x <= p.0 <= a.bbox.x + a.bbox.w && a.bbox.y <= p.1 <= a.bbox.y + a.bbox.h {
      var m :| 0 <= m < |c| && c[m] == p;
    }
  }

  /** The record written for one image: the image itself as image 1, named
      after its UID and sized as decoded, its annotations, and the nodule
      category alone. */
  function CocoFor(slice: SliceRecord, dims: Dims): (d: CocoDocument)
    ensures d.images == [ImageInfo(1, ImageFileName(slice.uid), dims.height, dims.width)]
    ensures d.categories == [Category(1, "nodule")]
    ensures d.annotations == Annotations(slice.nodules)
    ensures |d.annotations| == |slice.nodules|
    ensures forall a :: a in d.annotations ==> a.imageId == d.images[0].id && a.iscrowd == 0
  {
    CocoDocument([ImageInfo(1, ImageFileName(slice.uid), dims.height, dims.width)],
                 Annotations(slice.nodules), [NoduleCategory])
  }

  /** One manifest line: patient, the slice's 1-based position in its
      document, image UID. */
  datatype ManifestRow = ManifestRow(patientId: string, noduleNo: nat, uid: string)

  /** What a successfully exported image leaves behind. */
  datatype SliceExport = SliceExport(
    row: ManifestRow,
    maskFile: string, overlayFile: string, imageFile: string, cocoFile: string,
    coco: CocoDocument)

  /** The export of the slice at 1-based position `noduleNo` of a document. */
  function ExportSlice(patientId: string, noduleNo: nat, slice: SliceRecord, dims: Dims): SliceExport
  {
    SliceExport(
      ManifestRow(patientId, noduleNo, slice.uid),
      MaskFileName(slice.uid), OverlayFileName(slice.uid), ImageFileName(slice.uid), CocoFileName(slice.uid),
      CocoFor(slice, dims))
  }

  /** Positions, in increasing order, of exactly the slices that export. */
  function ExportedPositions(slices: seq<SliceRecord>, src: PixelSource): (r: seq<nat>)
    ensures forall k :: 0 <= k < |r| ==> r[k] < |slices| && Exported(src, slices[r[k]].uid)
    ensures forall i :: 0 <= i < |slices| && Exported(src, slices[i].uid) ==> i in r
    ensures forall a, b :: 0 <= a < b < |r| ==> r[a] < r[b]
  {
    if |slices| == 0 then []
    else
      var n := |slices| - 1;
      var rest := ExportedPositions(slices[..n], src);
      assert forall i :: 0 <= i < n ==> slices[..n][i] == slices[i];
      if Exported(src, slices[n].uid) then rest + [n] else rest
  }

  /** The exports of one document's slices, in slice order. */
  function ExportDocument(patientId: string, slices: seq<SliceRecord>, src: PixelSource): seq<SliceExport>
  {
    var ps := ExportedPositions(slices, src);
    seq(|ps|, k requires 0 <= k < |ps| =>
      ExportSlice(patientId, ps[k] + 1, slices[ps[k]], src.images[slices[ps[k]].uid]))
  }

  /** Each export comes from a slice that has a pixel source and exported
      without failure; its row names the patient, that slice's 1-based
      position among all the document's slices (so skipped slices leave gaps
      in the numbering) and the slice's image UID. */
  lemma ExportsAreExportedSlices(patientId: string, slices: seq<SliceRecord>, src: PixelSource)
    ensures var r := ExportDocument(patientId, slices, src);
      forall k :: 0 <= k < |r| ==>
        && 1 <= r[k].row.noduleNo <= |slices|
        && Exported(src, slices[r[k].row.noduleNo - 1].uid)
        && r[k].row == ManifestRow(patientId, r[k].row.noduleNo, slices[r[k].row.noduleNo - 1].uid)
  {
    var r := ExportDocument(patientId, slices, src);
    var ps := ExportedPositions(slices, src);
    forall k | 0 <= k < |r|
      ensures 1 <= r[k].row.noduleNo <= |slices|
      ensures Exported(src, slices[r[k].row.noduleNo - 1].uid)
      ensures r[k].row == ManifestRow(patientId, r[k].row.noduleNo, slices[r[k].row.noduleNo - 1].uid)
    {
      var i := ps[k];
      assert r[k] == ExportSlice(patientId, i + 1, slices[i], src.images[slices[i].uid]);
    }
  }

  /** Export `k` is the export of slice `i`: its files are named after the
      slice's UID and its record is built from the slice and the image's
      decoded shape. */
  lemma ExportAt(patientId: string, slices: seq<SliceRecord>, src: PixelSource, k: int) returns (i: int)
    requires 0 <= k < |ExportDocument(patientId, slices, src)|
    ensures 0 <= i < |slices| && Exported(src, slices[i].uid)
    ensures ExportDocument(patientId, slices, src)[k]
      == ExportSlice(patientId, i + 1, slices[i], src.images[slices[i].uid])
  {
    i := ExportedPositions(slices, src)[k];
  }

  /** A slice that has a pixel source and exports without failure is never
      left out: some export carries its position. */
  lemma ExportedSlicesAppear(patientId: string, slices: seq<SliceRecord>, src: PixelSource)
    ensures var r := ExportDocument(patientId, slices, src);
      forall i :: 0 <= i < |slices| && Exported(src, slices[i].uid) ==>
        exists k :: 0 <= k < |r| && r[k].row.noduleNo == i + 1
  {
    var r := ExportDocument(patientId, slices, src);
    var ps := ExportedPositions(slices, src);
    forall i | 0 <= i < |slices| && Exported(src, slices[i].uid)
      ensures exists k :: 0 <= k < |r| && r[k].row.noduleNo == i + 1
    {
      var k :| 0 <= k < |ps| && ps[k] == i;
      assert r[k].row.noduleNo == i + 1;
    }
  }

  /** Exports, and so manifest rows, come in slice order. */
  lemma ExportsInSliceOrder(patientId: string, slices: seq<SliceRecord>, src: PixelSource)
    ensures var r := ExportDocument(patientId, slices, src);
      forall a, b :: 0 <= a < b < |r| ==> r[a].row.noduleNo < r[b].row.noduleNo
  {
    var r := ExportDocument(patientId, slices, src);
    var ps := ExportedPositions(slices, src);
    forall a, b | 0 <= a < b < |r| ensures r[a].row.noduleNo < r[b].row.noduleNo {
      assert r[a].row.noduleNo == ps[a] + 1 && r[b].row.noduleNo == ps[b] + 1;
    }
  }

  /** The manifest rows of one document, one per exported slice, in order. */
  function ManifestRows(exports: seq<SliceExport>): (rows: seq<ManifestRow>)
    ensures |rows| == |exports| && forall k :: 0 <= k < |rows| ==> rows[k] == exports[k].row
  {
    seq(|exports|, k requires 0 <= k < |exports| => exports[k].row)
  }

  /** Every row names the patient, the 1-based position `i + 1` of a slice
      `i` that has a pixel source and exported, and that slice's UID. */
  ghost predicate RowsSound(rows: seq<ManifestRow>, patientId: string, slices: seq<SliceRecord>, src: PixelSource)
  {
    forall k :: 0 <= k < |rows| ==>
      && 1 <= rows[k].noduleNo <= |slices|
      && Exported(src, slices[rows[k].noduleNo - 1].uid)
      && rows[k] == ManifestRow(patientId, rows[k].noduleNo, slices[rows[k].noduleNo - 1].uid)
  }

  /** Every slice that has a pixel source and exported has its row. */
  ghost predicate RowsComplete(rows: seq<ManifestRow>, patientId: string, slices: seq<SliceRecord>, src: PixelSource)
  {
    forall i :: 0 <= i < |slices| && Exported(src, slices[i].uid) ==>
      ManifestRow(patientId, i + 1, slices[i].uid) in rows
  }

  /** Rows come in strictly increasing position, so no slice has two. */
  ghost predicate RowsOrdered(rows: seq<ManifestRow>)
  {
    forall a, b :: 0 <= a < b < |rows| ==> rows[a].noduleNo < rows[b].noduleNo
  }

  /** The manifest rule for one document: one row `(patient, i + 1, UID)`
      for each slice `i` that has a pixel source and exported, and no other,
      in slice order. */
  ghost predicate IsManifest(rows: seq<ManifestRow>, patientId: string, slices: seq<SliceRecord>, src: PixelSource)
  {
    RowsSound(rows, patientId, slices, src) && RowsComplete(rows, patientId, slices, src) && RowsOrdered(rows)
  }

  lemma ManifestRowsSound(patientId: string, slices: seq<SliceRecord>, src: PixelSource)
    ensures RowsSound(ManifestRows(ExportDocument(patientId, slices, src)), patientId, slices, src)
  {
    var r := ExportDocument(patientId, slices, src);
    var rows := ManifestRows(r);
    ExportsAreExportedSlices(patientId, slices, src);
    forall k | 0 <= k < |rows|
      ensures 1 <= rows[k].noduleNo <= |slices|
      ensures Exported(src, slices[rows[k].noduleNo - 1].uid)
      ensures rows[k] == ManifestRow(patientId, rows[k].noduleNo, slices[rows[k].noduleNo - 1].uid)
    {
      assert rows[k] == r[k].row;
    }
  }

  lemma ManifestRowsComplete(patientId: string, slices: seq<SliceRecord>, src: PixelSource)
    ensures RowsComplete(ManifestRows(ExportDocument(patientId, slices, src)), patientId, slices, src)
  {
    var r := ExportDocument(patientId, slices, src);
    var rows := ManifestRows(r);
    var ps := ExportedPositions(slices, src);
    forall i | 0 <= i < |slices| && Exported(src, slices[i].uid)
      ensures ManifestRow(patientId, i + 1, slices[i].uid) in rows
    {
      var k :| 0 <= k < |ps| && ps[k] == i;
      assert r[k] == ExportSlice(patientId, i + 1, slices[i], src.images[slices[i].uid]);
      assert rows[k] == r[k].row;
    }
  }

  lemma ManifestRowsOrdered(patientId: string, slices: seq<SliceRecord>, src: PixelSource)
    ensures RowsOrdered(ManifestRows(ExportDocument(patientId, slices, src)))
  {
    var r := ExportDocument(patientId, slices, src);
    var rows := ManifestRows(r);
    ExportsInSliceOrder(patientId, slices, src);
    forall a, b | 0 <= a < b < |rows| ensures rows[a].noduleNo < rows[b].noduleNo {
      assert rows[a] == r[a].row && rows[b] == r[b].row;
    }
  }

  /** The rows of a document's exports follow the manifest rule. */
  lemma ManifestRule(patientId: string, slices: seq<SliceRecord>, src: PixelSource)
    ensures IsManifest(ManifestRows(ExportDocument(patientId, slices, src)), patientId, slices, src)
  {
    ManifestRowsSound(patientId, slices, src);
    ManifestRowsComplete(patientId, slices, src);
    ManifestRowsOrdered(patientId, slices, src);
  }
}
