/** Choosing the one contour that represents a lesion on an image when several
    readers outlined it: the largest area wins, the earliest on a tie. */
module Selection {
  import opened Wrappers
  import opened Contours

  /** `cs[k]` has positive area, no contour is larger, and every earlier
      contour is strictly smaller: the contour a left-to-right scan with a
      strict `>` keeps. */
  ghost predicate IsFirstMaximum(cs: seq<Contour>, k: int)
  {
    && 0 <= k < |cs|
    && DoubledArea(cs[k]) > 0
    && (forall j :: 0 <= j < |cs| ==> DoubledArea(cs[j]) <= DoubledArea(cs[k]))
    && (forall j :: 0 <= j < k ==> DoubledArea(cs[j]) < DoubledArea(cs[k]))
  }

  /** The scan over `cs` resuming with running maximum `best` and current
      choice `chosen`: a contour replaces the choice only when its area is
      strictly greater than the running maximum. */
  function Scan(cs: seq<Contour>, best: nat, chosen: Option<Contour>): Option<Contour>
  {
    if |cs| == 0 then chosen
    else if DoubledArea(cs[0]) > best then Scan(cs[1..], DoubledArea(cs[0]), Some(cs[0]))
    else Scan(cs[1..], best, chosen)
  }

  /** A head of positive area that nothing later exceeds is the first
      maximum. */
  lemma HeadIsFirstMaximum(cs: seq<Contour>)
    requires |cs| > 0 && DoubledArea(cs[0]) > 0
    requires forall j :: 0 <= j < |cs| - 1 ==> DoubledArea(cs[1..][j]) <= DoubledArea(cs[0])
    ensures IsFirstMaximum(cs, 0)
  {
    forall j | 0 <= j < |cs| ensures DoubledArea(cs[j]) <= DoubledArea(cs[0]) {
      if j > 0 { assert cs[j] == cs[1..][j - 1]; }
    }
  }

  /** The first maximum of the tail, when it beats the head, is the first
      maximum of the whole sequence. */
  lemma FirstMaximumOfTail(cs: seq<Contour>, k: int)
    requires |cs| > 0 && IsFirstMaximum(cs[1..], k)
    requires DoubledArea(cs[0]) < DoubledArea(cs[1..][k])
    ensures IsFirstMaximum(cs, k + 1)
  {
    forall j | 0 <= j < |cs| ensures DoubledArea(cs[j]) <= DoubledArea(cs[k + 1]) {
      if j > 0 { assert cs[j] == cs[1..][j - 1]; }
    }
    forall j | 0 <= j < k + 1 ensures DoubledArea(cs[j]) < DoubledArea(cs[k + 1]) {
      if j > 0 { assert cs[j] == cs[1..][j - 1]; }
    }
  }

  /** What `Scan` returns given the state it resumes from: either the
      current choice survives because nothing beats `best`, or it is replaced
      by the first maximum of the rest, which beats `best`. */
  lemma {:induction false} ScanOutcome(cs: seq<Contour>, best: nat, chosen: Option<Contour>)
    ensures || (Scan(cs, best, chosen) == chosen && forall j :: 0 <= j < |cs| ==> DoubledArea(cs[j]) <= best)
            || (exists k {:trigger IsFirstMaximum(cs, k)} :: && IsFirstMaximum(cs, k) && Scan(cs, best, chosen) == Some(cs[k])
                            && DoubledArea(cs[k]) > best)
  {
    if |cs| > 0 {
      var a := DoubledArea(cs[0]);
      var rest := cs[1..];
      if a > best {
        ScanOutcome(rest, a, Some(cs[0]));
        var r := Scan(rest, a, Some(cs[0]));
        if r == Some(cs[0]) && forall j :: 0 <= j < |rest| ==> DoubledArea(rest[j]) <= a {
          HeadIsFirstMaximum(cs);
        } else {
          var k :| IsFirstMaximum(rest, k) && r == Some(rest[k]) && DoubledArea(rest[k]) > a;
          FirstMaximumOfTail(cs, k);
        }
      } else {
        ScanOutcome(rest, best, chosen);
        var r := Scan(rest, best, chosen);
        if r == chosen && forall j :: 0 <= j < |rest| ==> DoubledArea(rest[j]) <= best {
          forall j | 0 <= j < |cs| ensures DoubledArea(cs[j]) <= best {
            if j > 0 { assert cs[j] == rest[j - 1]; }
          }
        } else {
          var k :| IsFirstMaximum(rest, k) && r == Some(rest[k]) && DoubledArea(rest[k]) > best;
          FirstMaximumOfTail(cs, k);
        }
      }
    }
  }

  /** Starting the scan from an empty choice and a zero maximum, the scan
      returns nothing exactly when all areas are zero, and otherwise the first
      maximum, which has at least three points. */
  lemma ScanFromZero(cs: seq<Contour>)
    ensures Scan(cs, 0, None).None? <==> forall j :: 0 <= j < |cs| ==> DoubledArea(cs[j]) == 0
    ensures Scan(cs, 0, None).Some? ==> exists k {:trigger IsFirstMaximum(cs, k)} :: IsFirstMaximum(cs, k) && Scan(cs, 0, None).value == cs[k]
    ensures Scan(cs, 0, None).Some? ==> |Scan(cs, 0, None).value| >= 3
  {
    ScanOutcome(cs, 0, None);
    var r := Scan(cs, 0, None);
    if r.Some? {
      var k :| IsFirstMaximum(cs, k) && r.value == cs[k];
      if |r.value| < 3 { DegenerateHasNoArea(r.value); }
    }
  }

  /** The contour most closely resembling the lesion boundary. Nothing is
      chosen exactly when every candidate (possibly none) has zero area;
      otherwise the choice is a candidate of greatest area that no earlier
      candidate equals, and it has at least three points. */
  function SelectMostSignificant(cs: seq<Contour>): (r: Option<Contour>)
    ensures r.None? <==> forall j :: 0 <= j < |cs| ==> DoubledArea(cs[j]) == 0
    ensures r.Some? ==> exists k {:trigger IsFirstMaximum(cs, k)} :: IsFirstMaximum(cs, k) && r.value == cs[k]
    ensures r.Some? ==> |r.value| >= 3
  {
    ScanFromZero(cs);
    Scan(cs, 0, None)
  }

  /** The first maximum is unique, so the choice is fully determined by the areas. */
  lemma FirstMaximumUnique(cs: seq<Contour>, k: int, m: int)
    requires IsFirstMaximum(cs, k) && IsFirstMaximum(cs, m)
    ensures k == m
  {
  }

  /** A larger outline later in the list replaces a smaller earlier one; an
      equal one does not. */
  lemma LaterLargerWins(a: Contour, b: Contour)
    requires 0 < DoubledArea(a)
    ensures DoubledArea(a) < DoubledArea(b) ==> SelectMostSignificant([a, b]) == Some(b)
    ensures DoubledArea(a) >= DoubledArea(b) ==> SelectMostSignificant([a, b]) == Some(a)
  {
    var cs := [a, b];
    var r := SelectMostSignificant(cs);
    assert r.Some? by { assert DoubledArea(cs[0]) > 0; }
    var k :| IsFirstMaximum(cs, k) && r.value == cs[k];
    if DoubledArea(a) < DoubledArea(b) {
      assert DoubledArea(cs[1]) <= DoubledArea(cs[k]);
      assert k == 1;
    } else {
      assert DoubledArea(cs[0]) >= DoubledArea(cs[k]);
      assert k == 0;
    }
  }
}
