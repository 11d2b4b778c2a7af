/** Figure detection merges the boxes found on a page into clusters: the nested fixpoint of
    PyMuPdfExamExtractor._merge. The result is characterised without mentioning the order in
    which the loops visit the boxes, and that characterisation is proved to have one solution. */
module BoxClustering {

  datatype Rect = Rect(x0: real, y0: real, x1: real, y1: real)

  predicate NonEmpty(r: Rect) {
    r.x0 < r.x1 && r.y0 < r.y1
  }

  function Inflate(r: Rect, gap: real): Rect {
    Rect(r.x0 - gap, r.y0 - gap, r.x1 + gap, r.y1 + gap)
  }

  /** Strict overlap of two non-empty boxes. */
  predicate Intersects(a: Rect, b: Rect) {
    NonEmpty(a) && NonEmpty(b) && a.x0 < b.x1 && b.x0 < a.x1 && a.y0 < b.y1 && b.y0 < a.y1
  }

  predicate Near(a: Rect, b: Rect, gap: real) {
    Intersects(Inflate(a, gap), b)
  }

  function Min(a: real, b: real): real { if a <= b then a else b }

  function Max(a: real, b: real): real { if a <= b then b else a }

  /** The bounding box of two boxes. */
  function Hull(a: Rect, b: Rect): Rect {
    Rect(Min(a.x0, b.x0), Min(a.y0, b.y0), Max(a.x1, b.x1), Max(a.y1, b.y1))
  }

  predicate Inside(a: Rect, b: Rect) {
    b.x0 <= a.x0 && b.y0 <= a.y0 && a.x1 <= b.x1 && a.y1 <= b.y1
  }

  ghost predicate InsideSome(r: Rect, family: seq<Rect>) {
    exists i :: 0 <= i < |family| && Inside(r, family[i])
  }

  /** The inputs that survive the first filter: positive width and height. */
  function Kept(rects: seq<Rect>): seq<Rect> {
    if rects == [] then []
    else (if NonEmpty(rects[0]) then [rects[0]] else []) + Kept(rects[1..])
  }

  // ----- What a clustering is -----

  /** At least the gap apart on some axis. */
  ghost predicate Apart(a: Rect, b: Rect, gap: real) {
    a.x1 + gap <= b.x0 || b.x1 + gap <= a.x0 || a.y1 + gap <= b.y0 || b.y1 + gap <= a.y0
  }

  ghost predicate Separated(family: seq<Rect>, gap: real) {
    forall i, j :: 0 <= i < |family| && 0 <= j < |family| && i != j ==> Apart(family[i], family[j], gap)
  }

  ghost predicate Covers(family: seq<Rect>, inputs: seq<Rect>) {
    forall r :: r in inputs ==> InsideSome(r, family)
  }

  /** Each side of the box is a side of some input lying in the box: together with the fact that
      those inputs lie in it, the box is exactly their bounding box. */
  ghost predicate SpannedBy(b: Rect, inputs: seq<Rect>) {
    && (exists r :: r in inputs && Inside(r, b) && r.x0 == b.x0)
    && (exists r :: r in inputs && Inside(r, b) && r.y0 == b.y0)
    && (exists r :: r in inputs && Inside(r, b) && r.x1 == b.x1)
    && (exists r :: r in inputs && Inside(r, b) && r.y1 == b.y1)
  }

  /** No separated family that covers the inputs can do with less than this box in one member. */
  ghost predicate Inseparable(b: Rect, inputs: seq<Rect>, gap: real) {
    forall family: seq<Rect> :: Separated(family, gap) && Covers(family, inputs) ==> InsideSome(b, family)
  }

  ghost predicate Cluster(b: Rect, inputs: seq<Rect>, gap: real) {
    NonEmpty(b) && SpannedBy(b, inputs) && Inseparable(b, inputs, gap)
  }

  ghost predicate AllClusters(boxes: seq<Rect>, inputs: seq<Rect>, gap: real) {
    forall b :: b in boxes ==> Cluster(b, inputs, gap)
  }

  /** Boxes pairwise at least the gap apart, covering every kept input, each spanned by the inputs
      in it and none larger than the inputs force it to be. */
  ghost predicate IsClustering(boxes: seq<Rect>, rects: seq<Rect>, gap: real) {
    && Separated(boxes, gap)
    && Covers(boxes, Kept(rects))
    && AllClusters(boxes, Kept(rects), gap)
  }

  // ----- Geometry -----

  lemma KeptAreTheNonEmpty(rects: seq<Rect>)
    ensures forall r :: r in Kept(rects) <==> r in rects && r.x0 < r.x1 && r.y0 < r.y1
  {}

  /** What the inflated box meets is what is less than the gap away on both axes. */
  lemma {:induction false} NearIff(a: Rect, b: Rect, gap: real)
    requires a.x0 < a.x1 && a.y0 < a.y1 && b.x0 < b.x1 && b.y0 < b.y1 && gap >= 0.0
    ensures Near(a, b, gap) <==>
            a.x0 < b.x1 + gap && b.x0 < a.x1 + gap && a.y0 < b.y1 + gap && b.y0 < a.y1 + gap
    ensures Near(a, b, gap) <==> !Apart(a, b, gap)
  {}

  /** Boxes that hold near ones are not apart. */
  lemma NearMonotone(a: Rect, b: Rect, a': Rect, b': Rect, gap: real)
    requires Near(a, b, gap) && Inside(a, a') && Inside(b, b')
    ensures !Apart(a', b', gap)
  {}

  lemma OverlapIsNear(r: Rect, a: Rect, b: Rect, gap: real)
    requires gap >= 0.0 && NonEmpty(r) && Inside(r, a) && Inside(r, b)
    ensures !Apart(a, b, gap)
  {}

  lemma HullSpanned(a: Rect, b: Rect, inputs: seq<Rect>)
    requires SpannedBy(a, inputs) && SpannedBy(b, inputs)
    ensures SpannedBy(Hull(a, b), inputs)
  {}

  /** Two near clusters can only sit in the same member of a separated covering family, so their
      bounding box is a cluster again: the step of the fixpoint never merges too much. */
  lemma HullOfNearClusters(a: Rect, b: Rect, inputs: seq<Rect>, gap: real)
    requires Cluster(a, inputs, gap) && Cluster(b, inputs, gap) && Near(a, b, gap)
    ensures Cluster(Hull(a, b), inputs, gap)
  {
    HullSpanned(a, b, inputs);
    forall family: seq<Rect> | Separated(family, gap) && Covers(family, inputs)
      ensures InsideSome(Hull(a, b), family)
    {
      var i :| 0 <= i < |family| && Inside(a, family[i]);
      var j :| 0 <= j < |family| && Inside(b, family[j]);
      NearMonotone(a, b, family[i], family[j], gap);
      assert Inside(Hull(a, b), family[i]);
    }
  }

  lemma InputsAreClusters(inputs: seq<Rect>, gap: real)
    requires forall r :: r in inputs ==> NonEmpty(r)
    ensures AllClusters(inputs, inputs, gap) && Covers(inputs, inputs)
  {
    forall r | r in inputs ensures Cluster(r, inputs, gap) && InsideSome(r, inputs) {
      assert Inside(r, r);
    }
  }

  // ----- The algorithm -----

  ghost predicate Under(r: Rect, cur: Rect, boxes: seq<Rect>) {
    Inside(r, cur) || InsideSome(r, boxes)
  }

  ghost predicate FarFromAll(cur: Rect, boxes: seq<Rect>, gap: real) {
    forall b :: b in boxes ==> !Near(cur, b, gap)
  }

  /** One pass over the remaining boxes: those near the growing box are absorbed. */
  method Sweep(start: Rect, boxes: seq<Rect>, gap: real, ghost inputs: seq<Rect>)
    returns (cur: Rect, rest: seq<Rect>, merged: bool)
    requires Cluster(start, inputs, gap) && AllClusters(boxes, inputs, gap)
    ensures Cluster(cur, inputs, gap) && AllClusters(rest, inputs, gap)
    ensures forall r :: Under(r, start, boxes) ==> Under(r, cur, rest)
    ensures merged ==> |rest| < |boxes|
    ensures !merged ==> cur == start && rest == boxes && FarFromAll(cur, rest, gap)
  {
    cur, rest, merged := start, [], false;
    for i := 0 to |boxes|
      invariant Cluster(cur, inputs, gap) && AllClusters(rest, inputs, gap)
      invariant Inside(start, cur) && |rest| <= i
      invariant forall k :: 0 <= k < i ==> Under(boxes[k], cur, rest)
      invariant merged ==> |rest| < i
      invariant !merged ==> cur == start && rest == boxes[..i] && FarFromAll(cur, rest, gap)
    {
      var b := boxes[i];
      if Near(cur, b, gap) {
        HullOfNearClusters(cur, b, inputs, gap);
        cur, merged := Hull(cur, b), true;
      } else {
        ghost var before := rest;
        rest := rest + [b];
        assert rest[|before|] == b && Inside(b, b);
        assert forall k :: 0 <= k < |before| ==> rest[k] == before[k];
      }
    }
  }

  /** Repeats the pass until nothing more is absorbed. */
  method Absorb(start: Rect, boxes: seq<Rect>, gap: real, ghost inputs: seq<Rect>)
    returns (cur: Rect, rest: seq<Rect>, changed: bool)
    requires Cluster(start, inputs, gap) && AllClusters(boxes, inputs, gap)
    ensures Cluster(cur, inputs, gap) && AllClusters(rest, inputs, gap)
    ensures forall r :: Under(r, start, boxes) ==> Under(r, cur, rest)
    ensures FarFromAll(cur, rest, gap)
    ensures |rest| <= |boxes|
    ensures changed ==> |rest| < |boxes|
    ensures !changed ==> cur == start && rest == boxes
  {
    cur, rest, changed := start, boxes, false;
    var merged := true;
    while merged
      invariant Cluster(cur, inputs, gap) && AllClusters(rest, inputs, gap)
      invariant forall r :: Under(r, start, boxes) ==> Under(r, cur, rest)
      invariant |rest| <= |boxes| && (changed ==> |rest| < |boxes|)
      invariant !changed ==> cur == start && rest == boxes
      invariant !merged ==> FarFromAll(cur, rest, gap)
      decreases |rest|, merged
    {
      cur, rest, merged := Sweep(cur, rest, gap, inputs);
      changed := changed || merged;
    }
  }

  lemma CoverStep(out: seq<Rect>, boxes: seq<Rect>, cur: Rect, rest: seq<Rect>, inputs: seq<Rect>)
    requires boxes != [] && Covers(out + boxes, inputs)
    requires forall r :: Under(r, boxes[|boxes| - 1], boxes[..|boxes| - 1]) ==> Under(r, cur, rest)
    ensures Covers((out + [cur]) + rest, inputs)
  {
    var last := |boxes| - 1;
    var after := (out + [cur]) + rest;
    forall r | r in inputs ensures InsideSome(r, after) {
      var i :| 0 <= i < |out + boxes| && Inside(r, (out + boxes)[i]);
      if i < |out| {
        assert after[i] == out[i];
      } else {
        assert (out + boxes)[i] == boxes[i - |out|];
        if i - |out| < last { assert boxes[..last][i - |out|] == boxes[i - |out|]; }
        assert Under(r, boxes[last], boxes[..last]);
        assert Under(r, cur, rest);
        if Inside(r, cur) {
          assert after[|out|] == cur;
        } else {
          var k :| 0 <= k < |rest| && Inside(r, rest[k]);
          assert after[|out| + 1 + k] == rest[k];
        }
      }
    }
  }

  /** Earlier boxes are far from later ones. */
  ghost predicate OneWaySeparated(boxes: seq<Rect>, gap: real) {
    forall i, j :: 0 <= i < j < |boxes| ==> !Near(boxes[i], boxes[j], gap)
  }

  lemma BothWaysSeparated(boxes: seq<Rect>, gap: real)
    requires gap >= 0.0 && OneWaySeparated(boxes, gap) && forall b :: b in boxes ==> NonEmpty(b)
    ensures Separated(boxes, gap)
  {
    forall i, j | 0 <= i < |boxes| && 0 <= j < |boxes| && i != j ensures Apart(boxes[i], boxes[j], gap) {
      assert NonEmpty(boxes[i]) && NonEmpty(boxes[j]);
      if i < j { NearIff(boxes[i], boxes[j], gap); } else { NearIff(boxes[j], boxes[i], gap); }
    }
  }

  ghost predicate AllFar(out: seq<Rect>, boxes: seq<Rect>, gap: real) {
    forall o :: o in out ==> FarFromAll(o, boxes, gap)
  }

  lemma AppendSeparated(out: seq<Rect>, boxes: seq<Rect>, gap: real)
    requires boxes != [] && OneWaySeparated(out, gap) && AllFar(out, boxes, gap)
    requires FarFromAll(boxes[|boxes| - 1], boxes[..|boxes| - 1], gap)
    ensures OneWaySeparated(out + [boxes[|boxes| - 1]], gap)
    ensures AllFar(out + [boxes[|boxes| - 1]], boxes[..|boxes| - 1], gap)
  {
    var last := |boxes| - 1;
    var after := out + [boxes[last]];
    forall i, j | 0 <= i < j < |after| ensures !Near(after[i], after[j], gap) {
      if j == |out| { assert FarFromAll(out[i], boxes, gap); }
    }
  }

  /** One round over all boxes. A round that changes nothing has compared every pair. */
  method Round(start: seq<Rect>, gap: real, ghost inputs: seq<Rect>)
    returns (out: seq<Rect>, changed: bool)
    requires AllClusters(start, inputs, gap) && Covers(start, inputs)
    ensures AllClusters(out, inputs, gap) && Covers(out, inputs)
    ensures |out| <= |start| && (changed ==> |out| < |start|)
    ensures !changed ==> OneWaySeparated(out, gap)
  {
    var boxes := start;
    out, changed := [], false;
    assert out + boxes == start;
    while boxes != []
      invariant AllClusters(out, inputs, gap) && AllClusters(boxes, inputs, gap)
      invariant Covers(out + boxes, inputs)
      invariant |out| + |boxes| <= |start| && (changed ==> |out| + |boxes| < |start|)
      invariant !changed ==> OneWaySeparated(out, gap) && AllFar(out, boxes, gap)
      decreases |boxes|
    {
      var last := |boxes| - 1;
      var cur, rest, grew := Absorb(boxes[last], boxes[..last], gap, inputs);
      CoverStep(out, boxes, cur, rest, inputs);
      if !changed && !grew { AppendSeparated(out, boxes, gap); }
      out, boxes, changed := out + [cur], rest, changed || grew;
    }
    assert out + boxes == out;
  }

  /** The whole of _merge. For any gap it terminates with one-way separated clusters; for a real
      distance (gap at least zero) the result is the clustering of the inputs. */
  method Merge(rects: seq<Rect>, gap: real) returns (boxes: seq<Rect>)
    ensures OneWaySeparated(boxes, gap)
    ensures Covers(boxes, Kept(rects)) && AllClusters(boxes, Kept(rects), gap)
    ensures gap >= 0.0 ==> IsClustering(boxes, rects, gap)
    ensures forall r :: r in rects && r.x0 < r.x1 && r.y0 < r.y1 ==> InsideSome(r, boxes)
    ensures forall b :: b in boxes ==> SpannedBy(b, rects) && b.x0 < b.x1 && b.y0 < b.y1
  {
    boxes := Kept(rects);
    KeptAreTheNonEmpty(rects);
    InputsAreClusters(boxes, gap);
    var changed := true;
    while changed
      invariant AllClusters(boxes, Kept(rects), gap) && Covers(boxes, Kept(rects))
      invariant !changed ==> OneWaySeparated(boxes, gap)
      decreases |boxes|, changed
    {
      boxes, changed := Round(boxes, gap, Kept(rects));
    }
    MergedIsClustering(boxes, rects, gap);
  }

  lemma {:induction false} MergedIsClustering(boxes: seq<Rect>, rects: seq<Rect>, gap: real)
    requires OneWaySeparated(boxes, gap) && Covers(boxes, Kept(rects)) && AllClusters(boxes, Kept(rects), gap)
    ensures gap >= 0.0 ==> IsClustering(boxes, rects, gap)
    ensures forall r :: r in rects && r.x0 < r.x1 && r.y0 < r.y1 ==> InsideSome(r, boxes)
    ensures forall b :: b in boxes ==> SpannedBy(b, rects) && b.x0 < b.x1 && b.y0 < b.y1
  {
    KeptAreTheNonEmpty(rects);
    forall b | b in boxes ensures NonEmpty(b) && SpannedBy(b, rects) {
      assert Cluster(b, Kept(rects), gap);
      SpannedByMore(b, Kept(rects), rects);
    }
    if gap >= 0.0 { BothWaysSeparated(boxes, gap); }
  }

  lemma {:induction false} SpannedByMore(b: Rect, inputs: seq<Rect>, more: seq<Rect>)
    requires SpannedBy(b, inputs) && forall r :: r in inputs ==> r in more
    ensures SpannedBy(b, more)
  {}

  // ----- What the characterisation implies -----

  /** Every kept input lies in exactly one box of a clustering. */
  lemma ExactlyOneBox(boxes: seq<Rect>, rects: seq<Rect>, gap: real, r: Rect)
    requires gap >= 0.0 && IsClustering(boxes, rects, gap)
    requires r in rects && NonEmpty(r)
    ensures exists i :: 0 <= i < |boxes| && Inside(r, boxes[i])
                        && forall j :: 0 <= j < |boxes| && Inside(r, boxes[j]) ==> j == i
  {
    KeptAreTheNonEmpty(rects);
    var i :| 0 <= i < |boxes| && Inside(r, boxes[i]);
    forall j | 0 <= j < |boxes| && Inside(r, boxes[j]) ensures j == i {
      OverlapIsNear(r, boxes[i], boxes[j], gap);
    }
  }

  lemma ClusterFits(b: Rect, inputs: seq<Rect>, gap: real, family: seq<Rect>) returns (k: nat)
    requires Cluster(b, inputs, gap) && Separated(family, gap) && Covers(family, inputs)
    ensures k < |family| && Inside(b, family[k])
  {
    k :| k < |family| && Inside(b, family[k]);
  }

  /** A cluster lies in a member of the other family, and that member lies back in the cluster. */
  lemma ClusterIncluded(boxes: seq<Rect>, other: seq<Rect>, inputs: seq<Rect>, inputs': seq<Rect>, gap: real, i: nat)
    requires gap >= 0.0 && Separated(boxes, gap) && Separated(other, gap)
    requires Covers(boxes, inputs') && Covers(other, inputs)
    requires i < |boxes| && Cluster(boxes[i], inputs, gap)
    requires AllClusters(other, inputs', gap)
    ensures boxes[i] in other
  {
    var k := ClusterFits(boxes[i], inputs, gap, other);
    var j := ClusterFits(other[k], inputs', gap, boxes);
    OverlapIsNear(boxes[i], boxes[i], boxes[j], gap);
    assert other[k] == boxes[i];
  }

  lemma SeparatedNoDuplicates(boxes: seq<Rect>, gap: real, b: Rect)
    requires gap >= 0.0 && Separated(boxes, gap) && forall x :: x in boxes ==> NonEmpty(x)
    ensures multiset(boxes)[b] <= 1
    decreases |boxes|
  {
    if boxes != [] {
      var last := |boxes| - 1;
      SeparatedNoDuplicates(boxes[..last], gap, b);
      assert boxes == boxes[..last] + [boxes[last]];
      if boxes[last] == b && b in boxes[..last] {
        var i :| 0 <= i < last && boxes[i] == b;
        OverlapIsNear(b, boxes[i], boxes[last], gap);
      }
    }
  }

  /** There is one clustering: two lists of boxes with the same non-empty members, in whatever
      order and multiplicity, cluster into permutations of one another. */
  lemma ClusteringIsUnique(boxes: seq<Rect>, other: seq<Rect>, rects: seq<Rect>, rects': seq<Rect>, gap: real)
    requires gap >= 0.0 && IsClustering(boxes, rects, gap) && IsClustering(other, rects', gap)
    requires forall r :: NonEmpty(r) ==> (r in rects <==> r in rects')
    ensures multiset(boxes) == multiset(other)
  {
    var inputs, inputs' := Kept(rects), Kept(rects');
    KeptAreTheNonEmpty(rects);
    KeptAreTheNonEmpty(rects');
    assert Covers(boxes, inputs') && Covers(other, inputs);
    forall b ensures multiset(boxes)[b] == multiset(other)[b] {
      SeparatedNoDuplicates(boxes, gap, b);
      SeparatedNoDuplicates(other, gap, b);
      if b in boxes {
        var i :| 0 <= i < |boxes| && boxes[i] == b;
        ClusterIncluded(boxes, other, inputs, inputs', gap, i);
      }
      if b in other {
        var i :| 0 <= i < |other| && other[i] == b;
        ClusterIncluded(other, boxes, inputs', inputs, gap, i);
      }
    }
  }
}
