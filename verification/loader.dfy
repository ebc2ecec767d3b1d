/** The annotation loader: from an already-parsed reading-session document to
    the per-image candidate contour lists, keyed by image UID in the order the
    UIDs are first met. */
module Loader {
  import opened Wrappers
  import opened Contours

  /** One `roi` element: its `imageSOP_UID` if present, and the points of its
      `edgeMap` elements in document order (empty when it has none). */
  datatype Roi = Roi(uid: Option<string>, edges: Contour)

  /** One `unblindedReadNodule`; `hasCharacteristics` records whether it holds a
      `characteristics` element. */
  datatype Nodule = Nodule(hasCharacteristics: bool, rois: seq<Roi>)

  /** One `readingSession`: one reader's pass over the case. */
  datatype Session = Session(nodules: seq<Nodule>)

  datatype Document = Document(sessions: seq<Session>)

  /** A contour recorded for the image `uid`. */
  datatype Contribution = Contribution(uid: string, contour: Contour)

  /** All contours gathered for one image, in traversal order. */
  datatype SliceContours = SliceContours(uid: string, contours: seq<Contour>)

  /** An ROI takes part when it names its image and has at least one edge point. */
  predicate Qualifies(roi: Roi)
  {
    roi.uid.Some? && |roi.edges| > 0
  }

  function RoiContributions(rois: seq<Roi>): seq<Contribution>
  {
    if |rois| == 0 then []
    else
      (if Qualifies(rois[0]) then [Contribution(rois[0].uid.value, rois[0].edges)] else [])
      + RoiContributions(rois[1..])
  }

  /** A nodule without characteristics is skipped whole. */
  function NoduleContributions(nodules: seq<Nodule>): seq<Contribution>
  {
    if |nodules| == 0 then []
    else
      (if nodules[0].hasCharacteristics then RoiContributions(nodules[0].rois) else [])
      + NoduleContributions(nodules[1..])
  }

  function SessionContributions(sessions: seq<Session>): seq<Contribution>
  {
    if |sessions| == 0 then []
    else NoduleContributions(sessions[0].nodules) + SessionContributions(sessions[1..])
  }

  /** Every contour the document records, in session, nodule, ROI order. */
  function Contributions(doc: Document): seq<Contribution>
  {
    SessionContributions(doc.sessions)
  }

  // ---------------------------------------------------------------------------
  // Which ROIs contribute

  /** `roi` sits, as the `i`-th ROI of the `n`-th nodule of the `s`-th session,
      under a characterized nodule. */
  ghost predicate CharacterizedRoiAt(sessions: seq<Session>, s: int, n: int, i: int)
  {
    && 0 <= s < |sessions|
    && 0 <= n < |sessions[s].nodules|
    && sessions[s].nodules[n].hasCharacteristics
    && 0 <= i < |sessions[s].nodules[n].rois|
  }

  lemma {:induction false} RoiContributionsExact(rois: seq<Roi>, c: Contribution)
    ensures c in RoiContributions(rois) <==>
      exists i :: 0 <= i < |rois| && Qualifies(rois[i]) && rois[i] == Roi(Some(c.uid), c.contour)
  {
    if |rois| > 0 {
      RoiContributionsExact(rois[1..], c);
      if c in RoiContributions(rois[1..]) {
        var i :| 0 <= i < |rois[1..]| && Qualifies(rois[1..][i]) && rois[1..][i] == Roi(Some(c.uid), c.contour);
        assert rois[i + 1] == rois[1..][i];
      }
      if exists i :: 0 <= i < |rois| && Qualifies(rois[i]) && rois[i] == Roi(Some(c.uid), c.contour) {
        var i :| 0 <= i < |rois| && Qualifies(rois[i]) && rois[i] == Roi(Some(c.uid), c.contour);
        if i > 0 { assert rois[1..][i - 1] == rois[i]; }
      }
    }
  }

  lemma {:induction false} NoduleContributionsExact(nodules: seq<Nodule>, c: Contribution)
    ensures c in NoduleContributions(nodules) <==>
      exists n, i :: 0 <= n < |nodules| && nodules[n].hasCharacteristics && 0 <= i < |nodules[n].rois|
        && Qualifies(nodules[n].rois[i]) && nodules[n].rois[i] == Roi(Some(c.uid), c.contour)
  {
    if |nodules| > 0 {
      NoduleContributionsExact(nodules[1..], c);
      RoiContributionsExact(nodules[0].rois, c);
      if c in NoduleContributions(nodules[1..]) {
        var n, i :| 0 <= n < |nodules[1..]| && nodules[1..][n].hasCharacteristics && 0 <= i < |nodules[1..][n].rois|
          && Qualifies(nodules[1..][n].rois[i]) && nodules[1..][n].rois[i] == Roi(Some(c.uid), c.contour);
        assert nodules[n + 1] == nodules[1..][n];
      }
      if exists n, i ::
           && 0 <= n < |nodules| && nodules[n].hasCharacteristics && 0 <= i < |nodules[n].rois|
           && Qualifies(nodules[n].rois[i]) && nodules[n].rois[i] == Roi(Some(c.uid), c.contour)
      {
        var n, i :| 0 <= n < |nodules| && nodules[n].hasCharacteristics && 0 <= i < |nodules[n].rois|
          && Qualifies(nodules[n].rois[i]) && nodules[n].rois[i] == Roi(Some(c.uid), c.contour);
        if n > 0 { assert nodules[1..][n - 1] == nodules[n]; }
      }
    }
  }

  /** A contour is gathered exactly when some ROI of a characterized nodule
      names its image and lists exactly its points: nodules without
      characteristics and ROIs without an image UID or edge map add nothing,
      and a qualifying ROI's points are kept as they are. */
  lemma {:induction false} ContributionsExact(doc: Document, c: Contribution)
    ensures c in Contributions(doc) <==>
      exists s, n, i :: CharacterizedRoiAt(doc.sessions, s, n, i)
        && Qualifies(doc.sessions[s].nodules[n].rois[i])
        && doc.sessions[s].nodules[n].rois[i] == Roi(Some(c.uid), c.contour)
  {
    SessionContributionsExact(doc.sessions, c);
  }

  lemma {:induction false} SessionContributionsExact(sessions: seq<Session>, c: Contribution)
    ensures c in SessionContributions(sessions) <==>
      exists s, n, i :: CharacterizedRoiAt(sessions, s, n, i)
        && Qualifies(sessions[s].nodules[n].rois[i])
        && sessions[s].nodules[n].rois[i] == Roi(Some(c.uid), c.contour)
  {
    if |sessions| > 0 {
      SessionContributionsExact(sessions[1..], c);
      NoduleContributionsExact(sessions[0].nodules, c);
      if c in SessionContributions(sessions[1..]) {
        var s, n, i :| CharacterizedRoiAt(sessions[1..], s, n, i)
          && Qualifies(sessions[1..][s].nodules[n].rois[i])
          && sessions[1..][s].nodules[n].rois[i] == Roi(Some(c.uid), c.contour);
        assert sessions[s + 1] == sessions[1..][s];
        assert CharacterizedRoiAt(sessions, s + 1, n, i);
      }
      if c in NoduleContributions(sessions[0].nodules) {
        var n, i :| 0 <= n < |sessions[0].nodules| && sessions[0].nodules[n].hasCharacteristics
          && 0 <= i < |sessions[0].nodules[n].rois|
          && Qualifies(sessions[0].nodules[n].rois[i]) && sessions[0].nodules[n].rois[i] == Roi(Some(c.uid), c.contour);
        assert CharacterizedRoiAt(sessions, 0, n, i);
      }
      if exists s, n, i ::
           && CharacterizedRoiAt(sessions, s, n, i)
           && Qualifies(sessions[s].nodules[n].rois[i])
           && sessions[s].nodules[n].rois[i] == Roi(Some(c.uid), c.contour)
      {
        var s, n, i :| CharacterizedRoiAt(sessions, s, n, i)
          && Qualifies(sessions[s].nodules[n].rois[i])
          && sessions[s].nodules[n].rois[i] == Roi(Some(c.uid), c.contour);
        if s > 0 {
          assert sessions[1..][s - 1] == sessions[s];
          assert CharacterizedRoiAt(sessions[1..], s - 1, n, i);
        }
      }
    }
  }

  /** Traversal order: the sessions' contours follow one another, so a later
      session's contours come after every earlier session's. */
  lemma {:induction false} ContributionsConcatenate(s1: seq<Session>, s2: seq<Session>)
    ensures Contributions(Document(s1 + s2)) == Contributions(Document(s1)) + Contributions(Document(s2))
  {
    if |s1| > 0 {
      assert (s1 + s2)[1..] == s1[1..] + s2;
      ContributionsConcatenate(s1[1..], s2);
    } else {
      assert s1 + s2 == s2;
    }
  }

  /** Each ROI contributes on its own: the ROIs' contours follow one another
      in order, a qualifying ROI adds exactly its one contour and any other
      ROI adds none. */
  lemma {:induction false} RoiContributionsConcatenate(r1: seq<Roi>, r2: seq<Roi>)
    ensures RoiContributions(r1 + r2) == RoiContributions(r1) + RoiContributions(r2)
    ensures |r1| == 1 && Qualifies(r1[0]) ==> RoiContributions(r1) == [Contribution(r1[0].uid.value, r1[0].edges)]
    ensures |r1| == 1 && !Qualifies(r1[0]) ==> RoiContributions(r1) == []
  {
    if |r1| > 0 {
      assert (r1 + r2)[1..] == r1[1..] + r2;
      RoiContributionsConcatenate(r1[1..], r2);
    } else {
      assert r1 + r2 == r2;
    }
  }

  // ---------------------------------------------------------------------------
  // Grouping per image, in first-appearance order

  function Keys(gs: seq<SliceContours>): (r: seq<string>)
  {
    seq(|gs|, i requires 0 <= i < |gs| => gs[i].uid)
  }

  predicate Distinct(s: seq<string>)
  {
    forall i, j :: 0 <= i < j < |s| ==> s[i] != s[j]
  }

  /** Where `u` already is a key, if anywhere. */
  function IndexOf(gs: seq<SliceContours>, u: string): (r: Option<nat>)
    ensures r.Some? ==> r.value < |gs| && gs[r.value].uid == u
    ensures r.None? ==> u !in Keys(gs)
  {
    if |gs| == 0 then None
    else if gs[|gs| - 1].uid == u then Some(|gs| - 1)
    else
      var r := IndexOf(gs[..|gs| - 1], u);
      assert Keys(gs) == Keys(gs[..|gs| - 1]) + [gs[|gs| - 1].uid];
      r
  }

  /** Appending `c` under `uid` to a default-list mapping: extends the list of
      an existing key in place, or adds a new key at the end. */
  function Insert(gs: seq<SliceContours>, uid: string, c: Contour): seq<SliceContours>
  {
    match IndexOf(gs, uid)
    case Some(k) => gs[k := SliceContours(uid, gs[k].contours + [c])]
    case None => gs + [SliceContours(uid, [c])]
  }

  /** Inserting keeps keys unique, adds `uid` at the end only when it is new,
      and appends `c` to `uid`'s list alone. */
  lemma InsertShape(gs: seq<SliceContours>, uid: string, c: Contour)
    requires Distinct(Keys(gs))
    ensures var r := Insert(gs, uid, c);
      && Distinct(Keys(r))
      && (uid in Keys(gs) ==> Keys(r) == Keys(gs))
      && (uid !in Keys(gs) ==> Keys(r) == Keys(gs) + [uid] && r[|gs|].contours == [c])
      && (forall i :: 0 <= i < |gs| ==>
            r[i].contours == if gs[i].uid == uid then gs[i].contours + [c] else gs[i].contours)
  {
    var r := Insert(gs, uid, c);
    match IndexOf(gs, uid)
    case Some(k) =>
      assert Keys(gs)[k] == uid;
      assert Keys(r) == Keys(gs);
      forall i | 0 <= i < |gs| && gs[i].uid == uid ensures i == k {
        assert Keys(gs)[i] == Keys(gs)[k];
      }
    case None =>
      assert Keys(r) == Keys(gs) + [uid];
      forall i | 0 <= i < |gs| ensures gs[i].uid != uid {
        assert Keys(gs)[i] == gs[i].uid;
      }
  }

  function Uids(ps: seq<Contribution>): (r: seq<string>)
    ensures |r| == |ps|
    ensures forall i :: 0 <= i < |ps| ==> r[i] == ps[i].uid
  {
    if |ps| == 0 then [] else Uids(ps[..|ps| - 1]) + [ps[|ps| - 1].uid]
  }

  /** Position of the first occurrence of `u` in `s`. */
  function FirstIndex(s: seq<string>, u: string): (r: nat)
    requires u in s
    ensures r < |s| && s[r] == u
    ensures forall j :: 0 <= j < r ==> s[j] != u
  {
    if u in s[..|s| - 1] then FirstIndex(s[..|s| - 1], u) else |s| - 1
  }

  /** The contours recorded for `u`, in traversal order. */
  function ContoursFor(ps: seq<Contribution>, u: string): seq<Contour>
  {
    if |ps| == 0 then []
    else ContoursFor(ps[..|ps| - 1], u) + (if ps[|ps| - 1].uid == u then [ps[|ps| - 1].contour] else [])
  }

  /** The `defaultdict(list)` of contours per image UID after appending every
      contribution in turn. */
  function Group(ps: seq<Contribution>): seq<SliceContours>
  {
    if |ps| == 0 then []
    else Insert(Group(ps[..|ps| - 1]), ps[|ps| - 1].uid, ps[|ps| - 1].contour)
  }

  /** UIDs are keys exactly when recorded. */
  ghost predicate SameUids(gs: seq<SliceContours>, ps: seq<Contribution>)
  {
    forall u :: u in Keys(gs) <==> u in Uids(ps)
  }

  /** Keys are ordered by where their UID first appears. */
  ghost predicate FirstAppearanceOrder(gs: seq<SliceContours>, ps: seq<Contribution>)
  {
    forall i, j :: 0 <= i < j < |gs| ==>
      gs[i].uid in Uids(ps) && gs[j].uid in Uids(ps) &&
      FirstIndex(Uids(ps), gs[i].uid) < FirstIndex(Uids(ps), gs[j].uid)
  }

  /** Each key holds every contour recorded for it, in order. */
  ghost predicate AllContours(gs: seq<SliceContours>, ps: seq<Contribution>)
  {
    forall i :: 0 <= i < |gs| ==> gs[i].contours == ContoursFor(ps, gs[i].uid)
  }

  /** The grouping invariant: UIDs appear once, exactly the UIDs recorded,
      ordered by first appearance, each with all its contours in order. */
  ghost predicate GroupedBy(gs: seq<SliceContours>, ps: seq<Contribution>)
  {
    && Distinct(Keys(gs))
    && SameUids(gs, ps)
    && FirstAppearanceOrder(gs, ps)
    && AllContours(gs, ps)
  }

  lemma FirstIndexExtend(s: seq<string>, v: string, u: string)
    requires u in s
    ensures FirstIndex(s + [v], u) == FirstIndex(s, u)
  {
    assert (s + [v])[..|s|] == s;
  }

  lemma UidsSnoc(ps: seq<Contribution>, p: Contribution)
    ensures Uids(ps + [p]) == Uids(ps) + [p.uid]
    ensures (ps + [p])[..|ps|] == ps
  {
    assert (ps + [p])[..|ps|] == ps;
  }

  lemma StepSameUids(g: seq<SliceContours>, ps: seq<Contribution>, p: Contribution)
    requires GroupedBy(g, ps)
    ensures SameUids(Insert(g, p.uid, p.contour), ps + [p])
  {
    InsertShape(g, p.uid, p.contour);
    UidsSnoc(ps, p);
  }

  lemma StepOrder(g: seq<SliceContours>, ps: seq<Contribution>, p: Contribution)
    requires GroupedBy(g, ps)
    ensures FirstAppearanceOrder(Insert(g, p.uid, p.contour), ps + [p])
  {
    var r := Insert(g, p.uid, p.contour);
    InsertShape(g, p.uid, p.contour);
    UidsSnoc(ps, p);
    var us := Uids(ps + [p]);
    forall i, j | 0 <= i < j < |r|
      ensures r[i].uid in us && r[j].uid in us && FirstIndex(us, r[i].uid) < FirstIndex(us, r[j].uid)
    {
      assert Keys(r)[i] == r[i].uid && Keys(r)[j] == r[j].uid;
      assert i < |g| && Keys(r)[i] == Keys(g)[i];
      assert r[i].uid in Uids(ps) by { assert r[i].uid in Keys(g); }
      FirstIndexExtend(Uids(ps), p.uid, r[i].uid);
      if j < |g| {
        assert Keys(r)[j] == Keys(g)[j];
        assert r[j].uid in Uids(ps) by { assert r[j].uid in Keys(g); }
        FirstIndexExtend(Uids(ps), p.uid, r[j].uid);
      } else {
        assert r[j].uid == p.uid && p.uid !in Uids(ps);
      }
    }
  }

  lemma StepContours(g: seq<SliceContours>, ps: seq<Contribution>, p: Contribution)
    requires GroupedBy(g, ps)
    ensures AllContours(Insert(g, p.uid, p.contour), ps + [p])
  {
    var r := Insert(g, p.uid, p.contour);
    InsertShape(g, p.uid, p.contour);
    UidsSnoc(ps, p);
    forall i | 0 <= i < |r| ensures r[i].contours == ContoursFor(ps + [p], r[i].uid) {
      assert ContoursFor(ps + [p], r[i].uid)
        == ContoursFor(ps, r[i].uid) + (if p.uid == r[i].uid then [p.contour] else []);
      if i < |g| {
        assert Keys(r)[i] == Keys(g)[i];
      } else {
        assert p.uid !in Uids(ps) && r[i].uid == p.uid;
        NoContoursForAbsent(ps, p.uid);
      }
    }
  }

  lemma {:induction false} NoContoursForAbsent(ps: seq<Contribution>, u: string)
    requires u !in Uids(ps)
    ensures ContoursFor(ps, u) == []
  {
    if |ps| > 0 {
      assert Uids(ps[..|ps| - 1]) == Uids(ps)[..|ps| - 1];
      NoContoursForAbsent(ps[..|ps| - 1], u);
    }
  }

  lemma {:induction false} GroupShape(ps: seq<Contribution>)
    ensures GroupedBy(Group(ps), ps)
  {
    if |ps| > 0 {
      var init := ps[..|ps| - 1];
      var p := ps[|ps| - 1];
      assert ps == init + [p];
      GroupShape(init);
      InsertShape(Group(init), p.uid, p.contour);
      StepSameUids(Group(init), init, p);
      StepOrder(Group(init), init, p);
      StepContours(Group(init), init, p);
    }
  }

  /** Contours grouped per image UID. Each UID is a key once; the keys are
      exactly the UIDs recorded, ordered by where each first appears; and a
      key's list is every contour recorded for it, across all sessions and
      nodules, in traversal order. */
  function GroupByImage(doc: Document): (gs: seq<SliceContours>)
    ensures Distinct(Keys(gs))
    ensures forall u :: u in Keys(gs) <==> u in Uids(Contributions(doc))
    ensures FirstAppearanceOrder(gs, Contributions(doc))
    ensures forall i :: 0 <= i < |gs| ==> gs[i].contours == ContoursFor(Contributions(doc), gs[i].uid)
  {
    GroupShape(Contributions(doc));
    Group(Contributions(doc))
  }
}
