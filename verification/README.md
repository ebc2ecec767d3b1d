# LIDC-IDRI nodule annotations to COCO records — a Dafny model

This project models how `annallcsv.py` turns LIDC-IDRI reading-session XML
into per-image nodule records:

- **Grouping.** A case's reading sessions are walked in document order.
  A nodule without a `characteristics` element is skipped. So is an ROI with
  no `imageSOP_UID` or no `edgeMap` point. Every other ROI adds its outline
  to the list kept for its image UID. UIDs keep the order in which they are
  first met, as a `defaultdict(list)` does.
- **Selection.** For each image the outline with the strictly greatest
  unoriented shoelace area is kept, so the first maximum wins. An image
  whose outlines all have zero area yields nothing. At line 88 the source
  then indexes an empty list and raises. The exception is caught per
  document at line 236, so the whole document exports nothing. The model
  states this as an explicit `NoSelectableContour(uid)` error for the
  document, naming the first such image.
- **Geometry.** The kept outline gives:
  - a bounding box `[x, y, w, h]`;
  - an `area` equal to `w * h`, the box's area and not the polygon's;
  - a flat `[x1, y1, x2, y2, ...]` segmentation, which the mask step
    regroups into points.
- **Records.**
  - For each image that has a pixel source and exports without error, a
    COCO-style record is built. It holds one image, one annotation per
    nodule and the single `nodule` category.
  - The file names are derived from the UID.
  - A manifest row `(patient, position, UID)` is written. The position is
    1-based among all of the document's slices, so skipped slices leave
    gaps.
  - The patient identifier is `LIDC-IDRI-` followed by the XML base name up
    to its first dot.
  - Documents are processed one after another. A failing document adds
    nothing to the manifest.

Areas are kept in exact integers as the doubled unoriented shoelace sum.
This orders outlines as OpenCV's area does as long as the coordinates are
small enough for OpenCV's 32-bit and single-precision conversions to be
exact.

Modules, one file each:

| module | file | content |
|---|---|---|
| `Wrappers` | `wrappers.dfy` | `Option`, `Result` |
| `Contours` | `contours.dfy` | points, outlines, doubled shoelace area |
| `Selection` | `selection.dfy` | the first-maximum scan |
| `Loader` | `loader.dfy` | the parsed document tree, contributing ROIs, per-UID grouping |
| `Geometry` | `geometry.dfy` | bounding box, area, flattening and regrouping |
| `Slices` | `slices.dfy` | per-image slice records and the document-level parse result |
| `Export` | `export.dfy` | COCO records, file names, the exported-slice filter, manifest rows |
| `Pipeline` | `pipeline.dfy` | patient identifier, per-document outcome, batch manifest |

Which images have a DICOM file, their decoded shapes, and which images fail
partway through export are inputs (`Export.PixelSource`), not computed. A
slice counts as exported when its UID has a pixel source and is not among
the failing ones.

Two behaviours a reimplementation might well change are modelled as the
code has them:

- An image with no selectable outline fails the whole document. Skipping
  the image, or emitting a placeholder geometry, would be the alternatives.
- The reported `area` is the bounding-box area, not the polygon area.

## Model

| member | source | states |
|---|---|---|
| `Contours.DoubledArea` | annallcsv.py:34 | no contract of its own; see `Contours.DegenerateHasNoArea`, `Contours.AreaIgnoresWinding`, `Contours.RectangleArea` |
| `Contours.DegenerateHasNoArea` | annallcsv.py:34 | an outline of fewer than three points has zero area, so it can never be chosen |
| `Contours.AreaIgnoresWinding` | annallcsv.py:34 | listing an outline backwards negates the signed shoelace sum and leaves the unoriented area unchanged |
| `Contours.RectangleArea` | annallcsv.py:34 | the 3 by 4 rectangle `(1,1),(4,1),(4,5),(1,5)` has doubled area 24, i.e. area 12 |
| `Selection.Scan` | annallcsv.py:30-37 | no contract of its own; see `Selection.ScanOutcome`, `Selection.ScanFromZero` |
| `Selection.ScanOutcome` | annallcsv.py:32-37 | resuming the strict-`>` scan from a running maximum either keeps the current choice, when nothing later exceeds the maximum, or returns the first maximum of the rest, which exceeds it |
| `Selection.ScanFromZero` | annallcsv.py:30-38 | started from maximum 0 and no choice, the scan yields nothing exactly when every area is 0; otherwise it yields the first maximum, which has at least three points |
| `Selection.SelectMostSignificant` | annallcsv.py:28-38 | `None` exactly when the list is empty or all areas are 0; otherwise an element whose area is positive, at least every other area, and strictly greater than every earlier one |
| `Selection.HeadIsFirstMaximum` | annallcsv.py:35-37 | a positive-area head that nothing later exceeds is the first maximum |
| `Selection.FirstMaximumOfTail` | annallcsv.py:35-37 | the first maximum of the tail, when larger than the head, is the first maximum of the whole list |
| `Selection.FirstMaximumUnique` | annallcsv.py:35-37 | there is at most one first maximum, so the choice is determined by the areas alone |
| `Selection.LaterLargerWins` | annallcsv.py:35-37 | of two outlines with the first of positive area, the second is chosen exactly when its area is strictly larger; a tie keeps the first |
| `Loader.Qualifies` | annallcsv.py:61-69 | no contract of its own; see `Loader.RoiContributionsExact` |
| `Loader.Contributions` | annallcsv.py:48-77 | no contract of its own; see `Loader.ContributionsExact`, `Loader.ContributionsConcatenate` |
| `Loader.RoiContributionsExact` | annallcsv.py:60-77 | a contour is gathered from a list of ROIs exactly when one of them has a UID and edge points equal to it |
| `Loader.NoduleContributionsExact` | annallcsv.py:54-77 | a contour is gathered from nodules exactly when a qualifying ROI of a nodule with characteristics supplies it; nodules without characteristics add nothing |
| `Loader.SessionContributionsExact` | annallcsv.py:51-77 | the same across reading sessions, naming the session, nodule and ROI that supply the contour |
| `Loader.ContributionsExact` | annallcsv.py:48-77 | a document gathers `(uid, points)` exactly when some ROI of a characterized nodule has that `imageSOP_UID` and exactly those edge points, in order |
| `Loader.ContributionsConcatenate` | annallcsv.py:51-77 | sessions are walked in order: the contours of two runs of sessions are the first run's followed by the second's |
| `Loader.RoiContributionsConcatenate` | annallcsv.py:60-77 | ROIs are walked in order; one qualifying ROI adds exactly its one contour and any other ROI adds none |
| `Loader.IndexOf` | annallcsv.py:77 | a found position holds the UID; not found means the UID is not a key |
| `Loader.Insert` | annallcsv.py:77 | no contract of its own; see `Loader.InsertShape` |
| `Loader.InsertShape` | annallcsv.py:77 | appending under a UID keeps keys unique, adds the UID at the end only when new, and extends that UID's list alone by the contour |
| `Loader.FirstIndex` | annallcsv.py:77 | the position of the first occurrence of a UID in the traversal |
| `Loader.NoContoursForAbsent` | annallcsv.py:77 | a UID never recorded has no contours |
| `Loader.Group` | annallcsv.py:77 | no contract of its own; see `Loader.GroupShape` |
| `Loader.GroupShape` | annallcsv.py:48-77 | after appending every contribution, UIDs are keys once, exactly the recorded UIDs, in first-appearance order, each holding all its contours in traversal order |
| `Loader.GroupByImage` | annallcsv.py:48-80 | the per-image candidate lists of a document: distinct keys, exactly the recorded UIDs, first-appearance order, and each list equal to every contour recorded for its UID across sessions and nodules |
| `Geometry.Min` | annallcsv.py:88-89 | the minimum is at most every element and is attained |
| `Geometry.Max` | annallcsv.py:90-91 | the maximum is at least every element and is attained |
| `Geometry.BoundingBox` | annallcsv.py:87-92 | width and height are non-negative, every point lies in `[x, x+w] x [y, y+h]`, and each of `x`, `y`, `x+w`, `y+h` is attained by some point |
| `Geometry.Flatten` | annallcsv.py:99 | the flat list has two entries per point |
| `Geometry.Pairs` | annallcsv.py:146 | regrouping yields one point per two entries |
| `Geometry.PairsFlatten` | annallcsv.py:146 | regrouping the flattened outline gives back the outline exactly |
| `Geometry.FlattenPairs` | annallcsv.py:99 | every even-length coordinate list is the flattening of its regrouped points |
| `Geometry.FlattenAt` | annallcsv.py:99 | point `i` lands at positions `2i` and `2i+1` |
| `Geometry.Derive` | annallcsv.py:87-103 | the recorded geometry's box is the outline's bounding box, its area is the box's width times height, and its segmentation has two entries per point and regroups into the outline |
| `Geometry.RectangleBox` | annallcsv.py:87-92 | the rectangle `(1,1),(4,1),(4,5),(1,5)` has box `[1, 1, 3, 4]` |
| `Geometry.RectangleFlat` | annallcsv.py:99 | that rectangle flattens to `[1, 1, 4, 1, 4, 5, 1, 5]` |
| `Geometry.RectangleGeometry` | annallcsv.py:87-103 | that rectangle records box `[1, 1, 3, 4]`, area 12 and segmentation `[1, 1, 4, 1, 4, 5, 1, 5]` |
| `Slices.SliceFor` | annallcsv.py:81-103 | an image yields no slice exactly when all its candidates have zero area; otherwise one slice with the image's UID and exactly one nodule, the geometry of the first largest candidate, which has at least three points |
| `Slices.AllPresentOutcome` | annallcsv.py:79-92 | collecting per-image results succeeds exactly when every image has one, keeping them in order; otherwise it stops at the first image without one |
| `Slices.BuildSlices` | annallcsv.py:79-105 | a successful build has one slice per group |
| `Slices.BuildSlicesOutcome` | annallcsv.py:79-105 | building succeeds exactly when every group has a slice, and then slice `i` is group `i`'s; otherwise the error names the first group without one |
| `Slices.ParseDocument` | annallcsv.py:79-105 | no contract of its own; see `Slices.ParseSucceedsIff`, `Slices.ParsedSlicesCoverUids`, `Slices.ParsedSliceGeometry` |
| `Slices.ParseSucceedsIff` | annallcsv.py:79-92 | a document parses exactly when every recorded image has a contour of positive area; otherwise the error names a recorded image all of whose contours have zero area |
| `Slices.ParsedSlicesCoverUids` | annallcsv.py:79-80 | a parsed document has a slice for exactly the recorded UIDs, each once, in first-appearance order |
| `Slices.ParsedSliceGeometry` | annallcsv.py:79-103 | each parsed slice's one nodule is the geometry of the first largest of all contours recorded for its image, which has at least three points |
| `Slices.TwoReadersContributions` | annallcsv.py:51-77 | two sessions' outlines of one image are gathered in session order |
| `Slices.TwoReadersGroup` | annallcsv.py:48-80 | the two outlines merge into one candidate list of length 2 |
| `Slices.OutlineAreas` | annallcsv.py:34 | the example outlines have areas 10 and 50 |
| `Slices.TwoReadersMerge` | annallcsv.py:79-103 | of outlines of area 10 and 50 from two sessions, the area-50 one is recorded, as the only slice |
| `Slices.LineOnlyFails` | annallcsv.py:82-92 | a document whose only outline is a two-point line fails, naming that image |
| `Export.FileNamesDistinct` | annallcsv.py:152-155 | each file-name scheme is injective in the UID, and an image file never has a record file's name |
| `Export.Annotations` | annallcsv.py:165-175 | one annotation per nodule, with ids 1, 2, ... in order, image 1, category 1, not a crowd, the nodule's flat list as the only polygon, and the box and area copied unchanged |
| `Export.NoduleAnnotation` | annallcsv.py:165-175 | the one annotation of a chosen outline: id 1, image 1, category 1, not a crowd, one polygon that regroups into the outline, every point inside the box, and area equal to width times height |
| `Export.CocoFor` | annallcsv.py:165-188 | a record holds exactly one image, id 1, named after the UID and sized as decoded; exactly the `[{1, "nodule"}]` categories; and the slice's nodules' annotations, so annotation `i` has id `i+1`, image 1, category 1, is not a crowd, and carries nodule `i`'s flat list as its only polygon with its box and area unchanged |
| `Export.ExportedPositions` | annallcsv.py:131-135 | exactly the slices that have a pixel source and export, in increasing order |
| `Export.ExportsAreExportedSlices` | annallcsv.py:131-197 | every export's row is `(patient, i+1, uid)` for a slice `i` that has a pixel source and exported |
| `Export.ExportAt` | annallcsv.py:131-197 | export `k` is the export of such a slice `i`, named and numbered after it, with its record built from that slice and its image's shape |
| `Export.ExportedSlicesAppear` | annallcsv.py:131-197 | every slice that has a pixel source and exports produces an export numbered with its position plus one |
| `Export.ExportsInSliceOrder` | annallcsv.py:131-197 | export numbers strictly increase, so rows come in slice order, one per exported slice |
| `Export.ManifestRowsSound` | annallcsv.py:131-197 | every row of a document's manifest is `(patient, i+1, uid)` for a slice `i` that has a pixel source and exported |
| `Export.ManifestRowsComplete` | annallcsv.py:131-197 | every slice `i` that has a pixel source and exports has the row `(patient, i+1, uid)` |
| `Export.ManifestRowsOrdered` | annallcsv.py:196-197 | row numbers strictly increase, so rows come in slice order and no slice has two |
| `Export.ManifestRule` | annallcsv.py:131-197 | a document's rows are one `(patient, i+1, uid)` for each slice `i` that has a pixel source and exported, and no other, in slice order |
| `Export.ExportSlice` | annallcsv.py:150-197 | no contract of its own; its files and record are stated by `Export.FileNamesDistinct`, `Export.CocoFor` and `Export.ExportAt` |
| `Export.ExportDocument` | annallcsv.py:131-197 | no contract of its own; see `Export.ExportAt`, `Export.ExportsAreExportedSlices`, `Export.ExportedSlicesAppear`, `Export.ExportsInSliceOrder` |
| `Pipeline.BeforeFirstDot` | annallcsv.py:226 | a prefix of the name with no dot, ending at the first dot or at the end of the name |
| `Pipeline.PatientId` | annallcsv.py:226 | `LIDC-IDRI-` followed by the base name up to, not including, its first dot |
| `Pipeline.PatientIdExample` | annallcsv.py:226 | `0001.xml` gives `LIDC-IDRI-0001` |
| `Pipeline.ConcatMapAppend` | annallcsv.py:222-237 | concatenating per-document rows distributes over joining runs of documents |
| `Pipeline.BatchManifestAppend` | annallcsv.py:222-237 | documents are processed independently: the manifest of two runs of documents is the first run's rows followed by the second's |
| `Pipeline.BatchManifestSingle` | annallcsv.py:222-237 | a batch of one document holds exactly that document's rows |
| `Pipeline.FailedDocumentAddsNothing` | annallcsv.py:229-237 | a document that fails to parse adds no row and leaves the manifest as if it were absent |
| `Pipeline.DocumentManifest` | annallcsv.py:131-197 | the rows a parsed document adds are one `(patient, i+1, uid)` for each slice `i` that has a pixel source and exported, and no other, in slice order, under the document's patient identifier |
| `Pipeline.ProcessDocument` | annallcsv.py:229-237 | no contract of its own; see `Pipeline.FailedDocumentAddsNothing`, `Pipeline.DocumentManifest`, `Pipeline.ExportedRecord` |
| `Pipeline.DocumentRows` | annallcsv.py:229-237 | no contract of its own; see `Pipeline.DocumentManifest`, `Pipeline.FailedDocumentAddsNothing` |
| `Pipeline.BatchManifest` | annallcsv.py:222-237 | no contract of its own; see `Pipeline.BatchManifestAppend`, `Pipeline.BatchManifestSingle`, `Pipeline.FailedDocumentAddsNothing` |
| `Pipeline.ExportedRecord` | annallcsv.py:131-197 | each exported record of a parsed document declares only the nodule category and annotates exactly the first largest contour recorded for its image across all sessions |

## Left out

- `movefile.py` is not part of this model. It only moves files and removes directories.
- `find_dicom_file` and DICOM decoding are not modelled. A document's pixel source is a given map from UID to decoded shape. The UIDs whose export raises partway through are a given set.
- Pixel normalisation (lines 139-140) is left out because it is floating-point arithmetic. `cv2.fillPoly` and `cv2.cvtColor` rasterisation are also left out. The mask step is represented only by regrouping the flat list into points.
- Writing the PNGs, the JSON records and the CSV file with its header line (line 210), copying into the shared output directory, creating directories and discovering XML files are I/O and are left out. The manifest is a returned sequence, and the batch is a given list of documents.
- Artifacts an image leaves behind before its export raises are not modelled. This covers PNGs written before a failing JSON write. Only the manifest row, which is written last, is tracked.
- A later document can overwrite an earlier document's same-named files in the shared output directory. File names are modelled per image, not the directory's final contents.
- The per-document output directory name (line 223) is left out. It only affects where files go.
- XML parsing, namespace lookup and `int()` conversion of coordinates are left out. The model starts from a typed tree with integer points.
- An `imageSOP_UID` element with no text (Python `None` as a key) is not modelled. A UID is either absent or a string.
- `cv2.contourArea` is modelled as the exact unoriented shoelace area. The model does not reproduce how OpenCV converts the integer array built at line 33, nor rounding in its 32-bit integer and single-precision arithmetic. The ordering of outlines agrees only for coordinates small enough that those conversions are exact.
- Progress bars, printed messages and timing are logging only.
