/** One document's per-image slice records: group contours by image, choose
    one per image and derive its geometry. An image for which no contour can
    be chosen aborts the whole document. */
module Slices {
  import opened Wrappers
  import opened Contours
  import opened Selection
  import opened Geometry
  import opened Loader

  /** The record kept for one image: its UID and exactly one nodule geometry. */
  datatype SliceRecord = SliceRecord(uid: string, nodules: seq<NoduleGeometry>)

  /** Why a document yields no slices: some image's contours all have zero
      area, so there is no point set to take a bounding box of. */
  datatype ParseError = NoSelectableContour(uid: string)

  /** The slice for one image, or nothing when no contour can be chosen. */
  function SliceFor(g: SliceContours): (r: Option<SliceRecord>)
    ensures r.None? <==> forall j :: 0 <= j < |g.contours| ==> DoubledArea(g.contours[j]) == 0
    ensures r.Some? ==> r.value.uid == g.uid && |r.value.nodules| == 1
    ensures r.Some? ==> exists k {:trigger IsFirstMaximum(g.contours, k)} ::
      && IsFirstMaximum(g.contours, k) && |g.contours[k]| >= 3
      && r.value.nodules[0] == Derive(g.contours[k])
  {
    match SelectMostSignificant(g.contours)
    case None => None
    case Some(c) => Some(SliceRecord(g.uid, [Derive(c)]))
  }

  /** All the values when every element is present; otherwise the position
      of the first absent one. */
  function AllPresent<T>(xs: seq<Option<T>>): (r: Result<seq<T>, nat>)
    ensures r.Success? ==> |r.value| == |xs|
    ensures r.Failure? ==> r.error < |xs|
  {
    if |xs| == 0 then Success([])
    else
      match xs[0]
      case None => Failure(0)
      case Some(x) =>
        match AllPresent(xs[1..])
        case Failure(k) => Failure(k + 1)
        case Success(rest) => Success([x] + rest)
  }

  lemma {:induction false} AllPresentOutcome<T>(xs: seq<Option<T>>)
    ensures AllPresent(xs).Success? <==> forall i :: 0 <= i < |xs| ==> xs[i].Some?
    ensures AllPresent(xs).Success? ==> forall i :: 0 <= i < |xs| ==> xs[i] == Some(AllPresent(xs).value[i])
    ensures AllPresent(xs).Failure? ==>
      xs[AllPresent(xs).error].None? && forall j :: 0 <= j < AllPresent(xs).error ==> xs[j].Some?
  {
    if |xs| > 0 && xs[0].Some? {
      AllPresentOutcome(xs[1..]);
      assert forall j :: 1 <= j < |xs| ==> xs[j] == xs[1..][j - 1];
    }
  }

  /** Slices for the groups in order; the first group with no choosable
      contour stops the document. */
  function BuildSlices(gs: seq<SliceContours>): (r: Result<seq<SliceRecord>, ParseError>)
    ensures r.Success? ==> |r.value| == |gs|
  {
    match AllPresent(Attempts(gs))
    case Success(slices) => Success(slices)
    case Failure(k) => Failure(NoSelectableContour(gs[k].uid))
  }

  /** The attempted slice of every group. */
  function Attempts(gs: seq<SliceContours>): (r: seq<Option<SliceRecord>>)
    ensures |r| == |gs|
  {
    seq(|gs|, i requires 0 <= i < |gs| => SliceFor(gs[i]))
  }

  /** Building succeeds exactly when every group has a slice, and then yields
      those slices in group order; otherwise the error names the first group
      without one. */
  lemma BuildSlicesOutcome(gs: seq<SliceContours>)
    ensures BuildSlices(gs).Success? <==> forall i :: 0 <= i < |gs| ==> SliceFor(gs[i]).Some?
    ensures BuildSlices(gs).Success? ==>
      forall i :: 0 <= i < |gs| ==> SliceFor(gs[i]) == Some(BuildSlices(gs).value[i])
    ensures BuildSlices(gs).Failure? ==>
      exists k :: && 0 <= k < |gs| && BuildSlices(gs).error == NoSelectableContour(gs[k].uid)
                  && SliceFor(gs[k]).None? && forall j :: 0 <= j < k ==> SliceFor(gs[j]).Some?
  {
    var attempts := Attempts(gs);
    AllPresentOutcome(attempts);
    assert forall i :: 0 <= i < |gs| ==> attempts[i] == SliceFor(gs[i]);
  }

  /** The slices of one document, one per image UID, or the error naming the
      first image whose candidates all have zero area. */
  function ParseDocument(doc: Document): Result<seq<SliceRecord>, ParseError>
  {
    BuildSlices(GroupByImage(doc))
  }

  /** A group's contours are the document's contours for its UID, which is
      a recorded UID. */
  lemma GroupIsRecorded(doc: Document, gs: seq<SliceContours>, i: int)
    requires gs == GroupByImage(doc) && 0 <= i < |gs|
    ensures gs[i].uid in Uids(Contributions(doc))
    ensures gs[i].contours == ContoursFor(Contributions(doc), gs[i].uid)
  {
    assert Keys(gs)[i] == gs[i].uid;
  }

  /** Every recorded UID has its group. */
  lemma RecordedHasGroup(doc: Document, gs: seq<SliceContours>, u: string) returns (i: int)
    requires gs == GroupByImage(doc) && u in Uids(Contributions(doc))
    ensures 0 <= i < |gs| && gs[i].uid == u
  {
    assert u in Keys(gs);
    i :| 0 <= i < |gs| && Keys(gs)[i] == u;
  }

  /** A document is parsed exactly when every image it records has at least
      one contour of positive area; otherwise the error names a recorded
      image all of whose contours have zero area. */
  lemma ParseSucceedsIff(doc: Document)
    ensures ParseDocument(doc).Success? <==>
      forall u :: u in Uids(Contributions(doc)) ==>
        exists c :: c in ContoursFor(Contributions(doc), u) && DoubledArea(c) > 0
    ensures ParseDocument(doc).Failure? ==>
      && ParseDocument(doc).error.uid in Uids(Contributions(doc))
      && forall c :: c in ContoursFor(Contributions(doc), ParseDocument(doc).error.uid) ==> DoubledArea(c) == 0
  {
    var ps := Contributions(doc);
    var gs := GroupByImage(doc);
    var r := BuildSlices(gs);
    BuildSlicesOutcome(gs);
    if r.Success? {
      forall u | u in Uids(ps) ensures exists c :: c in ContoursFor(ps, u) && DoubledArea(c) > 0 {
        var i := RecordedHasGroup(doc, gs, u);
        GroupIsRecorded(doc, gs, i);
        assert SliceFor(gs[i]).Some?;
        var j :| 0 <= j < |gs[i].contours| && DoubledArea(gs[i].contours[j]) != 0;
        assert gs[i].contours[j] in ContoursFor(ps, u);
      }
    } else {
      var k :| 0 <= k < |gs| && r.error == NoSelectableContour(gs[k].uid) && SliceFor(gs[k]).None?;
      GroupIsRecorded(doc, gs, k);
      forall c | c in ContoursFor(ps, gs[k].uid) ensures DoubledArea(c) == 0 {
        var j :| 0 <= j < |gs[k].contours| && gs[k].contours[j] == c;
      }
    }
  }

  /** A parsed document has one slice per recorded image UID, each UID once,
      in the order the UIDs first appear in the document. */
  lemma ParsedSlicesCoverUids(doc: Document)
    requires ParseDocument(doc).Success?
    ensures forall u :: u in Uids(Contributions(doc)) <==>
      exists i :: 0 <= i < |ParseDocument(doc).value| && ParseDocument(doc).value[i].uid == u
    ensures forall i, j :: 0 <= i < j < |ParseDocument(doc).value| ==>
      && ParseDocument(doc).value[i].uid in Uids(Contributions(doc))
      && ParseDocument(doc).value[j].uid in Uids(Contributions(doc))
      && FirstIndex(Uids(Contributions(doc)), ParseDocument(doc).value[i].uid)
         < FirstIndex(Uids(Contributions(doc)), ParseDocument(doc).value[j].uid)
  {
    var ps := Contributions(doc);
    var gs := GroupByImage(doc);
    var slices := ParseDocument(doc).value;
    BuildSlicesOutcome(gs);
    assert forall i :: 0 <= i < |gs| ==> SliceFor(gs[i]) == Some(slices[i]);
    forall u | u in Uids(ps) ensures exists i :: 0 <= i < |slices| && slices[i].uid == u {
      var i := RecordedHasGroup(doc, gs, u);
      assert slices[i].uid == gs[i].uid;
    }
    forall i | 0 <= i < |slices| ensures slices[i].uid in Uids(ps) {
      GroupIsRecorded(doc, gs, i);
    }
    forall i, j | 0 <= i < j < |slices|
      ensures FirstIndex(Uids(ps), slices[i].uid) < FirstIndex(Uids(ps), slices[j].uid)
    {
      assert slices[i].uid == gs[i].uid && slices[j].uid == gs[j].uid;
    }
  }

  lemma SliceGeometry(g: SliceContours, s: SliceRecord) returns (k: int)
    requires SliceFor(g) == Some(s)
    ensures IsFirstMaximum(g.contours, k) && |g.contours[k]| >= 3
    ensures s.uid == g.uid && s.nodules == [Derive(g.contours[k])]
  {
    k :| IsFirstMaximum(g.contours, k) && |g.contours[k]| >= 3 && s.nodules[0] == Derive(g.contours[k]);
    assert s.nodules == [s.nodules[0]];
  }

  /** Each parsed slice holds exactly one nodule: the geometry of the
      contour `k` among those recorded for its image across all sessions,
      which is the first largest of them. */
  lemma ParsedSliceGeometry(doc: Document, i: int) returns (k: int)
    requires ParseDocument(doc).Success? && 0 <= i < |ParseDocument(doc).value|
    ensures IsFirstMaximum(ContoursFor(Contributions(doc), ParseDocument(doc).value[i].uid), k)
    ensures |ContoursFor(Contributions(doc), ParseDocument(doc).value[i].uid)[k]| >= 3
    ensures ParseDocument(doc).value[i].nodules
      == [Derive(ContoursFor(Contributions(doc), ParseDocument(doc).value[i].uid)[k])]
  {
    var gs := GroupByImage(doc);
    var slices := ParseDocument(doc).value;
    BuildSlicesOutcome(gs);
    assert SliceFor(gs[i]) == Some(slices[i]);
    GroupIsRecorded(doc, gs, i);
    k := SliceGeometry(gs[i], slices[i]);
  }

  /** An outline of area 10 and one of area 50 of the same image, by two
      readers. */
  const SmallOutline: Contour := [(0, 0), (2, 0), (2, 5), (0, 5)]
  const LargeOutline: Contour := [(0, 0), (5, 0), (5, 10), (0, 10)]
  const TwoReaders := Document([Session([Nodule(true, [Roi(Some("1.2.3"), SmallOutline)])]),
                                Session([Nodule(true, [Roi(Some("1.2.3"), LargeOutline)])])])

  /** The two readers' outlines are recorded in session order. */
  lemma TwoReadersContributions()
    ensures Contributions(TwoReaders) == [Contribution("1.2.3", SmallOutline), Contribution("1.2.3", LargeOutline)]
  {
    var ps := [Contribution("1.2.3", SmallOutline), Contribution("1.2.3", LargeOutline)];
    var s1, s2 := TwoReaders.sessions[0], TwoReaders.sessions[1];
    assert RoiContributions(s1.nodules[0].rois) == [ps[0]];
    assert RoiContributions(s2.nodules[0].rois) == [ps[1]];
    assert NoduleContributions(s1.nodules) == [ps[0]];
    assert NoduleContributions(s2.nodules) == [ps[1]];
    assert [s2][1..] == [];
    assert SessionContributions([s2]) == [ps[1]] + [];
    assert TwoReaders.sessions[1..] == [s2];
    assert SessionContributions(TwoReaders.sessions) == [ps[0]] + [ps[1]];
  }

  /** The two readers' outlines merge into one candidate list of size 2. */
  lemma TwoReadersGroup()
    ensures GroupByImage(TwoReaders) == [SliceContours("1.2.3", [SmallOutline, LargeOutline])]
  {
    var ps := [Contribution("1.2.3", SmallOutline), Contribution("1.2.3", LargeOutline)];
    TwoReadersContributions();
    assert ps[..1] == [ps[0]];
    assert ps[..1][..0] == [];
    assert Group(ps[..1]) == [SliceContours("1.2.3", [SmallOutline])];
    assert IndexOf([SliceContours("1.2.3", [SmallOutline])], "1.2.3") == Some(0);
    assert [SmallOutline] + [LargeOutline] == [SmallOutline, LargeOutline];
    assert Group(ps) == [SliceContours("1.2.3", [SmallOutline, LargeOutline])];
  }

  lemma OutlineAreas()
    ensures DoubledArea(SmallOutline) == 20 && DoubledArea(LargeOutline) == 100
  {
  }

  /** Of the two readers' outlines, the one of area 50 is kept. */
  lemma TwoReadersMerge()
    ensures ParseDocument(TwoReaders) == Success([SliceRecord("1.2.3", [Derive(LargeOutline)])])
  {
    TwoReadersGroup();
    var gs := [SliceContours("1.2.3", [SmallOutline, LargeOutline])];
    OutlineAreas();
    LaterLargerWins(SmallOutline, LargeOutline);
    var s := SliceRecord("1.2.3", [Derive(LargeOutline)]);
    assert SliceFor(gs[0]) == Some(s);
    var r := BuildSlices(gs);
    BuildSlicesOutcome(gs);
    assert r.Success? && |r.value| == 1 && r.value[0] == s;
    assert r.value == [s];
  }

  /** A document whose only outline of image "4.5.6" is a two-point line. */
  const LineOutline: Contour := [(3, 3), (7, 9)]
  const LineOnly := Document([Session([Nodule(true, [Roi(Some("4.5.6"), LineOutline)])])])

  /** A line encloses no area, so the whole document fails, naming that image. */
  lemma LineOnlyFails()
    ensures ParseDocument(LineOnly) == Failure(NoSelectableContour("4.5.6"))
  {
    var s := LineOnly.sessions[0];
    assert RoiContributions(s.nodules[0].rois) == [Contribution("4.5.6", LineOutline)];
    assert NoduleContributions(s.nodules) == [Contribution("4.5.6", LineOutline)];
    assert LineOnly.sessions[1..] == [];
    assert SessionContributions(LineOnly.sessions[1..]) == [];
    assert SessionContributions(LineOnly.sessions) == [Contribution("4.5.6", LineOutline)] + [];
    var ps := [Contribution("4.5.6", LineOutline)];
    assert Contributions(LineOnly) == ps;
    assert ps[..0] == [];
    var gs := [SliceContours("4.5.6", [LineOutline])];
    assert Group(ps) == gs;
    assert GroupByImage(LineOnly) == gs;
    DegenerateHasNoArea(LineOutline);
    assert SliceFor(gs[0]).None?;
    BuildSlicesOutcome(gs);
  }
}
