/** The start / middle / end targets that `__getitem__` derives for the
    retained positions of a window (data/dataset.py, the label loop). */
module Labels {
  import opened Wrappers
  import opened Hierarchy

  /** The target of one window position. */
  datatype Label = Label(start: bool, middle: bool, end: bool)

  /** The label formulas: a position starts a document when the slot before it
      is missing or in another document, ends one when the slot after it is
      missing or in another document, and is in the middle otherwise. Only the
      document component of a neighbour is compared, never its inventory. */
  function BoundaryLabel(prev: Option<Coord>, document: int, next: Option<Coord>): (l: Label)
    ensures l.middle <==> !l.start && !l.end
    ensures l.start || l.middle || l.end
  {
    var start := prev.None? || prev.value.document != document;
    var end := next.None? || next.value.document != document;
    Label(start, !start && !end, end)
  }

  /** What the loop variable `document` holds after the loop has looked at
      `slots`: it is assigned only at present slots, so it is the document of
      the last present slot, or `initial` (the centre's document, assigned
      before the loop) when every slot was missing. */
  function StaleDocument(slots: seq<Option<Coord>>, initial: int): (d: int)
    ensures slots != [] && slots[|slots| - 1].Some? ==> d == slots[|slots| - 1].value.document
    ensures (forall k :: 0 <= k < |slots| ==> slots[k].None?) ==> d == initial
  {
    if slots == [] then initial
    else if slots[|slots| - 1].Some? then slots[|slots| - 1].value.document
    else StaleDocument(slots[..|slots| - 1], initial)
  }

  /** When some slot is present, the stale document is the document of the
      last present slot: the one after which every slot is missing. */
  lemma {:induction false} StaleDocumentIsLastPresent(slots: seq<Option<Coord>>, initial: int) returns (k: nat)
    requires exists j :: 0 <= j < |slots| && slots[j].Some?
    ensures k < |slots| && slots[k].Some? && StaleDocument(slots, initial) == slots[k].value.document
    ensures forall l :: k < l < |slots| ==> slots[l].None?
  {
    if slots[|slots| - 1].Some? {
      k := |slots| - 1;
    } else {
      var init := slots[..|slots| - 1];
      var j :| 0 <= j < |slots| && slots[j].Some?;
      assert init[j] == slots[j];
      k := StaleDocumentIsLastPresent(init, initial);
      assert init[k] == slots[k];
      forall l | k < l < |slots| ensures slots[l].None? {
        if l < |slots| - 1 {
          assert init[l] == slots[l];
        }
      }
    }
  }

  /** The label loop: one target per retained position 1 .. numberOfImages of
      the window, computed from the position and its two neighbours. */
  method ComputeTargets(idcs: seq<Option<Coord>>, numberOfImages: nat, centreDocument: int)
    returns (targets: seq<Label>)
    requires |idcs| == numberOfImages + 2
    ensures |targets| == numberOfImages
    ensures forall i :: 0 <= i < numberOfImages && idcs[i + 1].Some? ==>
      && (targets[i].start <==> idcs[i].None? || idcs[i].value.document != idcs[i + 1].value.document)
      && (targets[i].end <==> idcs[i + 2].None? || idcs[i + 2].value.document != idcs[i + 1].value.document)
      && (targets[i].middle <==> !targets[i].start && !targets[i].end)
    ensures forall i :: 0 <= i < numberOfImages ==>
      targets[i] == BoundaryLabel(idcs[i], StaleDocument(idcs[1..i + 2], centreDocument), idcs[i + 2])
  {
    targets := [];
    var document := centreDocument;
    for i := 0 to numberOfImages
      invariant |targets| == i
      invariant document == StaleDocument(idcs[1..i + 1], centreDocument)
      invariant forall k :: 0 <= k < i ==>
        targets[k] == BoundaryLabel(idcs[k], StaleDocument(idcs[1..k + 2], centreDocument), idcs[k + 2])
    {
      var prevIdx, idx, nextIdx := idcs[i], idcs[i + 1], idcs[i + 2];
      if idx.Some? {
        document := idx.value.document;
      }
      StaleStep(idcs, i, centreDocument);
      var start := prevIdx.None? || prevIdx.value.document != document;
      var end := nextIdx.None? || nextIdx.value.document != document;
      var middle := !start && !end;
      assert Label(start, middle, end) == BoundaryLabel(prevIdx, document, nextIdx);
      targets := targets + [Label(start, middle, end)];
    }
    PresentLabels(idcs, numberOfImages, centreDocument, targets);
  }

  /** At a present slot, the label only compares the neighbours' documents
      with the slot's own. */
  lemma PresentLabels(idcs: seq<Option<Coord>>, numberOfImages: nat, centreDocument: int, targets: seq<Label>)
    requires |idcs| == numberOfImages + 2 && |targets| == numberOfImages
    requires forall i :: 0 <= i < numberOfImages ==>
      targets[i] == BoundaryLabel(idcs[i], StaleDocument(idcs[1..i + 2], centreDocument), idcs[i + 2])
    ensures forall i :: 0 <= i < numberOfImages && idcs[i + 1].Some? ==>
      && (targets[i].start <==> idcs[i].None? || idcs[i].value.document != idcs[i + 1].value.document)
      && (targets[i].end <==> idcs[i + 2].None? || idcs[i + 2].value.document != idcs[i + 1].value.document)
      && (targets[i].middle <==> !targets[i].start && !targets[i].end)
  {
    forall i | 0 <= i < numberOfImages && idcs[i + 1].Some?
      ensures targets[i].start <==> idcs[i].None? || idcs[i].value.document != idcs[i + 1].value.document
      ensures targets[i].end <==> idcs[i + 2].None? || idcs[i + 2].value.document != idcs[i + 1].value.document
      ensures targets[i].middle <==> !targets[i].start && !targets[i].end
    {
      assert idcs[1..i + 2][i] == idcs[i + 1];
    }
  }

  lemma StaleStep(idcs: seq<Option<Coord>>, i: nat, initial: int)
    requires i + 2 <= |idcs|
    ensures StaleDocument(idcs[1..i + 2], initial)
      == if idcs[i + 1].Some? then idcs[i + 1].value.document else StaleDocument(idcs[1..i + 1], initial)
  {
    assert idcs[1..i + 2][..i] == idcs[1..i + 1];
  }

  /** The label a scan deserves from the hierarchy itself: it starts its
      document iff it is the document's first scan and ends it iff it is the
      last one. */
  function TrueLabel(h: Shape, c: Coord): (l: Label)
    requires InBounds(h, c)
    ensures l.start <==> c.scan == 0
    ensures l.end <==> c.scan == h[c.inventory][c.document] - 1
    ensures l.middle <==> 0 < c.scan < h[c.inventory][c.document] - 1
  {
    var first := c.scan == 0;
    var last := c.scan == h[c.inventory][c.document] - 1;
    Label(first, !first && !last, last)
  }

  /** When a scan's neighbours in the window are its row-major neighbours in its
      inventory (missing past the inventory's ends), the label formulas give the
      true document boundaries. */
  lemma FlatNeighboursLabel(h: Shape, i: int, n: int, prev: Option<Coord>, x: Coord, next: Option<Coord>)
    requires 0 <= i < |h|
    requires FlatSlot(h, i, n - 1, prev) && FlatSlot(h, i, n, Some(x)) && FlatSlot(h, i, n + 1, next)
    ensures BoundaryLabel(prev, x.document, next) == TrueLabel(h, x)
  {
    var j, s := x.document, x.scan;
    FlatIndexBounds(h, x);
    if s > 0 {
      var y := Coord(i, j, s - 1);
      assert InBounds(h, y) && FlatIndex(h, y) == n - 1;
      FlatIndexBounds(h, y);
      FlatIndexOrder(h, prev.value, y);
    } else if prev.Some? {
      var p := prev.value;
      FlatIndexBounds(h, p);
      if p.document >= j {
        ScansBeforeMono(h, i, j, p.document);
        assert false;
      }
    }
    if s < h[i][j] - 1 {
      var y := Coord(i, j, s + 1);
      assert InBounds(h, y) && FlatIndex(h, y) == n + 1;
      FlatIndexBounds(h, y);
      FlatIndexOrder(h, next.value, y);
    } else if next.Some? {
      var q := next.value;
      FlatIndexBounds(h, q);
      ScansBeforeStep(h, i, j);
      if q.document <= j {
        ScansBeforeMono(h, i, q.document + 1, j + 1);
        assert false;
      }
    }
  }
}
