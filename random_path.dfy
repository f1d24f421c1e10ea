/** The acceptance loop of `generate_path`: a growing list of lines that starts
    with a zero-length anchor at the origin; each candidate runs from the end of
    the last line to a sampled point and is appended only if it is short enough
    and no line already in the list reports an intersection with it. */
module RandomPath {
  import opened Geometry

  datatype Option<T> = None | Some(value: T)

  /** `Line()`: both ends default to the origin. */
  const Anchor: Line := Line(Origin, Origin)

  /** Bounds of `random.randint(-200, 200)`, both inclusive. */
  const SampleMin: int := -200
  const SampleMax: int := 200

  predicate InSampleSquare(p: Point)
  {
    SampleMin <= p.x <= SampleMax && SampleMin <= p.y <= SampleMax
  }

  /** The rejection test `new_line.length() > line_lengh_max > 0`, on squared
      lengths: a cap of zero or less never rejects, and neither does a
      zero-length line. */
  function TooLong(l: Line, maxLength: int): (r: bool)
    ensures r ==> maxLength > 0
    ensures l.begin == l.end ==> !r
  {
    maxLength > 0 && SquaredLength(l) > maxLength * maxLength
  }

  /** Squaring is strictly increasing on the non-negative integers. */
  lemma SquareStrictlyMonotone(a: int, b: int)
    requires 0 <= a < b
    ensures a * a < b * b
  {
  }

  /** A line that passes a positive cap moves at most the cap along each axis. */
  lemma WithinCapBoundsSteps(l: Line, maxLength: int)
    requires maxLength > 0 && !TooLong(l, maxLength)
    ensures -maxLength <= l.end.x - l.begin.x <= maxLength
    ensures -maxLength <= l.end.y - l.begin.y <= maxLength
  {
    var dx, dy := l.end.x - l.begin.x, l.end.y - l.begin.y;
    SquareNonNegative(dx);
    SquareNonNegative(dy);
    if dx > maxLength {
      SquareStrictlyMonotone(maxLength, dx);
    } else if dx < -maxLength {
      SquareStrictlyMonotone(maxLength, -dx);
    }
    if dy > maxLength {
      SquareStrictlyMonotone(maxLength, dy);
    } else if dy < -maxLength {
      SquareStrictlyMonotone(maxLength, -dy);
    }
  }

  /** Raising a positive cap never turns an accepted length into a rejected one. */
  lemma CapMonotone(l: Line, m1: int, m2: int)
    requires 0 < m1 <= m2 && !TooLong(l, m1)
    ensures !TooLong(l, m2)
  {
    if m1 < m2 {
      SquareStrictlyMonotone(m1, m2);
    }
  }

  /** `Line(end_of_last_line, new_point)` in random-path.py: the candidate
      runs from the end of the last line to the sampled point `p`, which
      becomes the new end of the path. */
  function Candidate(lines: seq<Line>, p: Point): (r: Line)
    requires |lines| > 0
    ensures r.end == p
  {
    Line(lines[|lines| - 1].end, p)
  }

  /** Appending a candidate keeps the list a chain. */
  lemma CandidateKeepsChain(lines: seq<Line>, p: Point)
    requires |lines| > 0 && Chained(lines)
    ensures Chained(lines + [Candidate(lines, p)])
  {
    var grown := lines + [Candidate(lines, p)];
    forall i | 0 < i < |grown|
      ensures grown[i].begin == grown[i - 1].end
    {
      if i < |lines| {
        assert grown[i] == lines[i] && grown[i - 1] == lines[i - 1];
      }
    }
  }

  /** The acceptance rule of `generate_path` in random-path.py: the candidate
      is not too long and no line already in the list reports an intersection
      with it. The anchor at the head of the list never decides the outcome. */
  predicate Acceptable(lines: seq<Line>, candidate: Line, maxLength: int): (r: bool)
    ensures |lines| > 0 && lines[0] == Anchor ==>
              (r <==> !TooLong(candidate, maxLength)
                      && forall i :: 1 <= i < |lines| ==> !IsIntersected(lines[i], candidate))
  {
    !TooLong(candidate, maxLength) &&
    forall i :: 0 <= i < |lines| ==> !IsIntersected(lines[i], candidate)
  }

  /** Every line after the first begins where its predecessor ends. */
  ghost predicate Chained(lines: seq<Line>)
  {
    forall i :: 0 < i < |lines| ==> lines[i].begin == lines[i - 1].end
  }

  /** No line reports an intersection with any line appended after it. */
  ghost predicate SelfAvoiding(lines: seq<Line>)
  {
    forall i, j :: 0 <= i < j < |lines| ==> !IsIntersected(lines[i], lines[j])
  }

  ghost predicate WithinCap(lines: seq<Line>, maxLength: int)
  {
    forall i :: 0 <= i < |lines| ==> !TooLong(lines[i], maxLength)
  }

  ghost predicate InSquare(lines: seq<Line>)
  {
    forall i :: 0 <= i < |lines| ==> InSampleSquare(lines[i].end)
  }

  /** The state `lines` of `generate_path` can reach with cap `maxLength`. */
  ghost predicate ValidPath(lines: seq<Line>, maxLength: int)
  {
    |lines| > 0 && lines[0] == Anchor &&
    Chained(lines) && SelfAvoiding(lines) && WithinCap(lines, maxLength) && InSquare(lines)
  }

  /** `any(l.is_intersected(new_line) for l in lines)`, stopping at the first hit. */
  method AnyIntersects(lines: seq<Line>, candidate: Line) returns (intersection: bool)
    ensures intersection <==> exists i :: 0 <= i < |lines| && IsIntersected(lines[i], candidate)
  {
    var i := 0;
    while i < |lines|
      invariant 0 <= i <= |lines|
      invariant forall k :: 0 <= k < i ==> !IsIntersected(lines[k], candidate)
    {
      if IsIntersected(lines[i], candidate) {
        return true;
      }
      i := i + 1;
    }
    return false;
  }

  /** The anchor never rejects a candidate: it has no length, so it contains no
      point, and every triangle with a repeated vertex has zero area. */
  lemma AnchorNeverRejects(candidate: Line)
    ensures !IsIntersected(Anchor, candidate)
  {
  }

  /** The joint shared by the last line and the candidate is never taken for a
      crossing: the last line rejects the candidate only if the sampled point is
      on its supporting line. */
  lemma JointIsNoCrossing(lines: seq<Line>, p: Point)
    requires |lines| > 0
    ensures var last := lines[|lines| - 1];
            !IntersectPoints(last.begin, last.end, last.end, p)
    ensures var last := lines[|lines| - 1];
            IsIntersected(last, Candidate(lines, p)) <==> PointBelongsTheLine(last, p)
  {
  }

  /** After a line of positive length, a candidate that goes straight on, turns
      straight back, or has zero length is always rejected. */
  lemma CollinearStepRejected(lines: seq<Line>, p: Point, maxLength: int)
    requires |lines| > 0
    requires lines[|lines| - 1].begin != lines[|lines| - 1].end
    requires Area(lines[|lines| - 1].begin, lines[|lines| - 1].end, p) == 0
    ensures !Acceptable(lines, Candidate(lines, p), maxLength)
  {
    var last := lines[|lines| - 1];
    assert IsIntersected(last, Candidate(lines, p));
  }

  /** On the first step nothing but the anchor is in the list, so even the
      zero-length candidate from the origin to the origin is accepted. */
  lemma ZeroLengthFirstStepAccepted(maxLength: int)
    ensures Acceptable([Anchor], Line(Origin, Origin), maxLength)
  {
    var c := Line(Origin, Origin);
    assert !TooLong(c, maxLength);
    AnchorNeverRejects(c);
    var first := [Anchor];
    forall i | 0 <= i < |first|
      ensures !IsIntersected(first[i], c)
    {
      assert i == 0;
    }
  }

  /** Appending a line no earlier line reports keeps the list self-avoiding. */
  lemma SelfAvoidingAppend(lines: seq<Line>, c: Line)
    requires SelfAvoiding(lines)
    requires forall i :: 0 <= i < |lines| ==> !IsIntersected(lines[i], c)
    ensures SelfAvoiding(lines + [c])
  {
    var grown := lines + [c];
    forall i, j | 0 <= i < j < |grown|
      ensures !IsIntersected(grown[i], grown[j])
    {
      assert grown[i] == lines[i];
      if j < |lines| {
        assert grown[j] == lines[j];
      }
    }
  }

  /** Appending an accepted candidate keeps every invariant of the path. */
  lemma AcceptKeepsValid(lines: seq<Line>, p: Point, maxLength: int)
    requires ValidPath(lines, maxLength) && InSampleSquare(p)
    requires Acceptable(lines, Candidate(lines, p), maxLength)
    ensures ValidPath(lines + [Candidate(lines, p)], maxLength)
  {
    var c := Candidate(lines, p);
    var grown := lines + [c];
    CandidateKeepsChain(lines, p);
    SelfAvoidingAppend(lines, c);
    assert forall i :: 0 <= i < |lines| ==> grown[i] == lines[i];
  }

  /** The lines a run of `generate_path` appends when the random source
      produces `candidates`, in order. */
  ghost function Replay(lines: seq<Line>, candidates: seq<Point>, maxLength: int): seq<Line>
    requires |lines| > 0
    decreases |candidates|
  {
    if candidates == [] then []
    else
      var c := Candidate(lines, candidates[0]);
      if Acceptable(lines, c, maxLength) then [c] + Replay(lines + [c], candidates[1..], maxLength)
      else Replay(lines, candidates[1..], maxLength)
  }

  /** One step of `Replay` at position `i`, behind the lines already yielded:
      the form in which `PathGenerator.Generate` carries its invariant. */
  lemma ReplayAdvance(lines: seq<Line>, yielded: seq<Line>, candidates: seq<Point>, i: nat, maxLength: int)
    requires |lines| > 0 && i < |candidates|
    ensures var c := Candidate(lines, candidates[i]);
            Acceptable(lines, c, maxLength) ==>
              yielded + Replay(lines, candidates[i..], maxLength)
              == (yielded + [c]) + Replay(lines + [c], candidates[i + 1..], maxLength)
    ensures var c := Candidate(lines, candidates[i]);
            !Acceptable(lines, c, maxLength) ==>
              yielded + Replay(lines, candidates[i..], maxLength)
              == yielded + Replay(lines, candidates[i + 1..], maxLength)
  {
    var c := Candidate(lines, candidates[i]);
    var accepted := Replay(lines + [c], candidates[i + 1..], maxLength);
    assert candidates[i..][0] == candidates[i] && candidates[i..][1..] == candidates[i + 1..];
    assert yielded + ([c] + accepted) == (yielded + [c]) + accepted;
  }

  /** Each sampled point yields at most one line, and every line yielded ends
      at one of the sampled points. */
  lemma {:induction false} ReplayDrawsFromSamples(lines: seq<Line>, candidates: seq<Point>, maxLength: int)
    requires |lines| > 0
    ensures |Replay(lines, candidates, maxLength)| <= |candidates|
    ensures forall k :: 0 <= k < |Replay(lines, candidates, maxLength)| ==>
              Replay(lines, candidates, maxLength)[k].end in candidates
    decreases |candidates|
  {
    if candidates != [] {
      var c := Candidate(lines, candidates[0]);
      var rest := candidates[1..];
      assert forall q :: q in rest ==> q in candidates;
      if Acceptable(lines, c, maxLength) {
        ReplayDrawsFromSamples(lines + [c], rest, maxLength);
        var tail := Replay(lines + [c], rest, maxLength);
        assert forall k :: 0 < k <= |tail| ==> ([c] + tail)[k] == tail[k - 1];
      } else {
        ReplayDrawsFromSamples(lines, rest, maxLength);
      }
    }
  }

  /** Whatever the random source produces, the path stays a chain from the
      anchor whose every line passed the length cap and the intersection test
      against all the lines before it. */
  lemma {:induction false} ReplayKeepsValid(lines: seq<Line>, candidates: seq<Point>, maxLength: int)
    requires ValidPath(lines, maxLength)
    requires forall k :: 0 <= k < |candidates| ==> InSampleSquare(candidates[k])
    ensures ValidPath(lines + Replay(lines, candidates, maxLength), maxLength)
    decreases |candidates|
  {
    if candidates == [] {
      assert lines + [] == lines;
    } else {
      var c := Candidate(lines, candidates[0]);
      if Acceptable(lines, c, maxLength) {
        AcceptKeepsValid(lines, candidates[0], maxLength);
        ReplayKeepsValid(lines + [c], candidates[1..], maxLength);
        assert lines + ([c] + Replay(lines + [c], candidates[1..], maxLength))
            == (lines + [c]) + Replay(lines + [c], candidates[1..], maxLength);
      } else {
        ReplayKeepsValid(lines, candidates[1..], maxLength);
      }
    }
  }

  /** When the candidate for the first point of the stream is acceptable, it is
      the first line yielded. */
  lemma ReplayAccepts(lines: seq<Line>, p: Point, rest: seq<Point>, maxLength: int)
    requires |lines| > 0 && Acceptable(lines, Candidate(lines, p), maxLength)
    ensures Replay(lines, [p] + rest, maxLength)
            == [Candidate(lines, p)] + Replay(lines + [Candidate(lines, p)], rest, maxLength)
  {
    assert ([p] + rest)[0] == p && ([p] + rest)[1..] == rest;
  }

  /** Pairwise facts about the lines of `PathTouchesItself`. */
  lemma TouchingPair0()
    ensures !IsIntersected(Line(Point(0, 0), Point(4, 0)), Line(Point(4, 0), Point(6, -3)))
  {
  }

  lemma TouchingPair1()
    ensures !IsIntersected(Line(Point(0, 0), Point(4, 0)), Line(Point(6, -3), Point(4, -2)))
  {
  }

  lemma TouchingPair2()
    ensures !IsIntersected(Line(Point(0, 0), Point(4, 0)), Line(Point(4, -2), Point(4, 2)))
  {
  }

  lemma TouchingPair3()
    ensures !IsIntersected(Line(Point(4, 0), Point(6, -3)), Line(Point(6, -3), Point(4, -2)))
  {
  }

  lemma TouchingPair4()
    ensures !IsIntersected(Line(Point(4, 0), Point(6, -3)), Line(Point(4, -2), Point(4, 2)))
  {
  }

  lemma TouchingPair5()
    ensures !IsIntersected(Line(Point(6, -3), Point(4, -2)), Line(Point(4, -2), Point(4, 2)))
  {
  }

  /** A line the anchor alone would accept on length is acceptable on the
      first step. */
  lemma AcceptableAfterAnchor(c: Line, maxLength: int)
    requires !TooLong(c, maxLength)
    ensures Acceptable([Anchor], c, maxLength)
  {
    AnchorNeverRejects(c);
  }

  /** A candidate stays acceptable when a line that does not report it is
      added to the list. */
  lemma AcceptableAppend(lines: seq<Line>, l: Line, c: Line, maxLength: int)
    requires Acceptable(lines, c, maxLength) && !IsIntersected(l, c)
    ensures Acceptable(lines + [l], c, maxLength)
  {
    var grown := lines + [l];
    forall i | 0 <= i < |grown|
      ensures !IsIntersected(grown[i], c)
    {
      if i < |lines| {
        assert grown[i] == lines[i];
      }
    }
  }

  /** The first line of `TouchingReplay` is acceptable after the anchor. */
  lemma TouchingStep1()
    ensures Acceptable([Anchor], Line(Point(0, 0), Point(4, 0)), 0)
  {
    AcceptableAfterAnchor(Line(Point(0, 0), Point(4, 0)), 0);
  }

  /** The second line of `TouchingReplay` is acceptable after the first. */
  lemma TouchingStep2()
    ensures Acceptable([Anchor] + [Line(Point(0, 0), Point(4, 0))], Line(Point(4, 0), Point(6, -3)), 0)
  {
    var l1, l2 := Line(Point(0, 0), Point(4, 0)), Line(Point(4, 0), Point(6, -3));
    AcceptableAfterAnchor(l2, 0);
    TouchingPair0();
    AcceptableAppend([Anchor], l1, l2, 0);
  }

  /** The third line of `TouchingReplay` is acceptable after the first two. */
  lemma TouchingStep3()
    ensures Acceptable([Anchor] + [Line(Point(0, 0), Point(4, 0))] + [Line(Point(4, 0), Point(6, -3))],
                       Line(Point(6, -3), Point(4, -2)), 0)
  {
    var l1, l2 := Line(Point(0, 0), Point(4, 0)), Line(Point(4, 0), Point(6, -3));
    var l3 := Line(Point(6, -3), Point(4, -2));
    AcceptableAfterAnchor(l3, 0);
    TouchingPair1();
    AcceptableAppend([Anchor], l1, l3, 0);
    TouchingPair3();
    AcceptableAppend([Anchor] + [l1], l2, l3, 0);
  }

  /** The fourth line of `TouchingReplay`, which passes through (4, 0), is
      acceptable after the first three. */
  lemma TouchingStep4()
    ensures Acceptable([Anchor] + [Line(Point(0, 0), Point(4, 0))] + [Line(Point(4, 0), Point(6, -3))]
                       + [Line(Point(6, -3), Point(4, -2))],
                       Line(Point(4, -2), Point(4, 2)), 0)
  {
    var l1, l2 := Line(Point(0, 0), Point(4, 0)), Line(Point(4, 0), Point(6, -3));
    var l3, c := Line(Point(6, -3), Point(4, -2)), Line(Point(4, -2), Point(4, 2));
    AcceptableAfterAnchor(c, 0);
    TouchingPair2();
    AcceptableAppend([Anchor], l1, c, 0);
    TouchingPair4();
    AcceptableAppend([Anchor] + [l1], l2, c, 0);
    TouchingPair5();
    AcceptableAppend([Anchor] + [l1] + [l2], l3, c, 0);
  }

  /** The four lines `generate_path` yields with no length cap when the random
      source produces (4, 0), (6, -3), (4, -2) and (4, 2). */
  lemma TouchingReplay()
    ensures Replay([Anchor], [Point(4, 0), Point(6, -3), Point(4, -2), Point(4, 2)], 0)
            == [Line(Point(0, 0), Point(4, 0)), Line(Point(4, 0), Point(6, -3)),
                Line(Point(6, -3), Point(4, -2)), Line(Point(4, -2), Point(4, 2))]
  {
    var l1, l2 := Line(Point(0, 0), Point(4, 0)), Line(Point(4, 0), Point(6, -3));
    var l3, c := Line(Point(6, -3), Point(4, -2)), Line(Point(4, -2), Point(4, 2));
    var p0 := [Anchor];
    var s4 := [Point(4, 2)];
    var s3 := [Point(4, -2)] + s4;
    var s2 := [Point(6, -3)] + s3;
    var s1 := [Point(4, 0)] + s2;
    assert s4 == [Point(4, 2)] + [];
    assert s1 == [Point(4, 0), Point(6, -3), Point(4, -2), Point(4, 2)];
    assert [l1] + ([l2] + ([l3] + ([c] + []))) == [l1, l2, l3, c];
    assert Candidate(p0, Point(4, 0)) == l1;
    assert Candidate(p0 + [l1], Point(6, -3)) == l2;
    assert Candidate(p0 + [l1] + [l2], Point(4, -2)) == l3;
    assert Candidate(p0 + [l1] + [l2] + [l3], Point(4, 2)) == c;
    TouchingStep1();
    TouchingStep2();
    TouchingStep3();
    TouchingStep4();
    ReplayAccepts(p0 + [l1] + [l2] + [l3], Point(4, 2), [], 0);
    ReplayAccepts(p0 + [l1] + [l2], Point(4, -2), s4, 0);
    ReplayAccepts(p0 + [l1], Point(6, -3), s3, 0);
    ReplayAccepts(p0, Point(4, 0), s2, 0);
  }

  /** The lines of `TouchingReplay`, behind the anchor, form a valid path. */
  lemma TouchingPathValid()
    ensures ValidPath([Anchor] + [Line(Point(0, 0), Point(4, 0)), Line(Point(4, 0), Point(6, -3)),
                                  Line(Point(6, -3), Point(4, -2)), Line(Point(4, -2), Point(4, 2))], 0)
  {
    var samples := [Point(4, 0), Point(6, -3), Point(4, -2), Point(4, 2)];
    assert forall k :: 0 <= k < |samples| ==> InSampleSquare(samples[k]);
    assert ValidPath([Anchor], 0);
    TouchingReplay();
    ReplayKeepsValid([Anchor], samples, 0);
  }

  /** The generated path can touch itself. With no length cap, sampling (4, 0),
      (6, -3), (4, -2) and (4, 2) yields four lines; the fourth runs from
      (4, -2) to (4, 2) through (4, 0), the vertex shared by the first two, yet
      the resulting list satisfies `ValidPath`. */
  lemma PathTouchesItself()
    ensures var l1, l2 := Line(Point(0, 0), Point(4, 0)), Line(Point(4, 0), Point(6, -3));
            var l3, c := Line(Point(6, -3), Point(4, -2)), Line(Point(4, -2), Point(4, 2));
            ValidPath([Anchor, l1, l2, l3, c], 0)
            && l1.end == l2.begin
            && Area(c.begin, c.end, l1.end) == 0 && c.begin.y < l1.end.y < c.end.y
  {
    var l1, l2 := Line(Point(0, 0), Point(4, 0)), Line(Point(4, 0), Point(6, -3));
    var l3, c := Line(Point(6, -3), Point(4, -2)), Line(Point(4, -2), Point(4, 2));
    assert Area(c.begin, c.end, l1.end) == 0;
    assert [Anchor] + [l1, l2, l3, c] == [Anchor, l1, l2, l3, c];
    TouchingPathValid();
  }

  /** The state of one `generate_path(line_lengh_max)` generator. */
  class PathGenerator {
    const maxLength: int
    var lines: seq<Line>

    ghost predicate Valid()
      reads this
    {
      ValidPath(lines, maxLength)
    }

    /** `lines = [Line()]`. */
    constructor (maxLength: int)
      ensures Valid()
      ensures this.maxLength == maxLength && lines == [Anchor]
    {
      this.maxLength := maxLength;
      lines := [Anchor];
    }

    /** One pass of the `while True` body with `p` as the sampled point: the
        candidate is appended, and would be yielded, exactly when it is
        acceptable; otherwise the list is left as it was. */
    method TryExtend(p: Point) returns (accepted: bool, candidate: Line)
      requires Valid() && InSampleSquare(p)
      modifies this
      ensures Valid()
      ensures candidate == Candidate(old(lines), p)
      ensures accepted <==> Acceptable(old(lines), candidate, maxLength)
      ensures lines == if accepted then old(lines) + [candidate] else old(lines)
    {
      var endOfLastLine := lines[|lines| - 1].end;
      candidate := Line(endOfLastLine, p);
      if TooLong(candidate, maxLength) {
        return false, candidate;
      }
      var intersection := AnyIntersects(lines, candidate);
      accepted := !intersection;
      if accepted {
        AcceptKeepsValid(lines, p, maxLength);
        lines := lines + [candidate];
      }
    }

    /** Pulling the next line from the generator when the random source
        produces `candidates`: points are drawn until one is accepted, and
        `used` of them are consumed. `None` means the points ran out first. */
    method Next(candidates: seq<Point>) returns (next: Option<Line>, used: nat)
      requires Valid()
      requires forall k :: 0 <= k < |candidates| ==> InSampleSquare(candidates[k])
      modifies this
      ensures Valid()
      ensures used <= |candidates|
      ensures next.None? ==> used == |candidates| && lines == old(lines)
      ensures next.Some? ==> 0 < used && next.value == Candidate(old(lines), candidates[used - 1])
                             && Acceptable(old(lines), next.value, maxLength)
                             && lines == old(lines) + [next.value]
      ensures forall k :: 0 <= k < used && (next.None? || k < used - 1) ==>
                !Acceptable(old(lines), Candidate(old(lines), candidates[k]), maxLength)
    {
      used := 0;
      while used < |candidates|
        invariant used <= |candidates|
        invariant Valid() && lines == old(lines)
        invariant forall k :: 0 <= k < used ==>
                    !Acceptable(old(lines), Candidate(old(lines), candidates[k]), maxLength)
      {
        var accepted, candidate := TryExtend(candidates[used]);
        used := used + 1;
        if accepted {
          return Some(candidate), used;
        }
      }
      return None, used;
    }

    /** Consuming the generator while the random source produces `candidates`:
        the lines yielded are exactly those appended, and they are the ones
        `Replay` determines. */
    method Generate(candidates: seq<Point>) returns (yielded: seq<Line>)
      requires Valid()
      requires forall k :: 0 <= k < |candidates| ==> InSampleSquare(candidates[k])
      modifies this
      ensures Valid()
      ensures lines == old(lines) + yielded
      ensures yielded == Replay(old(lines), candidates, maxLength)
    {
      yielded := [];
      var i := 0;
      while i < |candidates|
        invariant 0 <= i <= |candidates|
        invariant Valid() && lines == old(lines) + yielded
        invariant Replay(old(lines), candidates, maxLength)
                  == yielded + Replay(lines, candidates[i..], maxLength)
      {
        ReplayAdvance(lines, yielded, candidates, i, maxLength);
        var accepted, candidate := TryExtend(candidates[i]);
        if accepted {
          yielded := yielded + [candidate];
        }
        i := i + 1;
      }
      assert candidates[i..] == [];
    }
  }
}
