/** `DocumentSeparationDataset` of data/dataset.py: the flat index over the
    hierarchy, the navigation primitives, the forward and backward walks that
    build a window around a scan, the random perturbations of a window and the
    window / label part of `__getitem__`. Every random draw is read from an
    explicit stream (module Randomness). */
module Dataset {
  import opened Wrappers
  import opened Randomness
  import opened Hierarchy
  import opened Labels

  /** The `mode` argument; any other string fails the constructor's assertion. */
  datatype Mode = Train | Val | Test

  /** Why construction aborts: a document without scans (`ValueError`), or
      `number_of_images <= 0` (a failed assertion). */
  datatype ConstructionError = EmptyDocument(inventory: nat, document: nat) | NonPositiveNumberOfImages

  /** `np.random.choice` over an empty range raises `ValueError`. */
  datatype SampleError = EmptyChoice

  /** What the index build leaves behind: `idx_to_idcs` and `len`. */
  datatype Index = Index(idxToIdcs: map<nat, Coord>, len: nat)

  /** The result of one step of a walk, as `get_scans_in_next_document` and
      `get_scans_in_prev_document` return it: the scans of the document entered
      (None at an edge without wrap-around) and the document the walk is at,
      plus the position in the random stream. */
  datatype Step = Step(scans: Option<seq<Coord>>, at: DocRef, t: nat)

  /** The part of `__getitem__`'s output this model keeps: the whole window of
      coordinates, and in the train and validation modes the targets and the
      retained slots `idcs[1:-1]`. */
  datatype Sample = Sample(window: seq<Option<Coord>>, targets: Option<seq<Label>>, idcs: Option<seq<Option<Coord>>>)

  /** `idx_to_idcs` maps exactly the flat indices below the total number of
      scans, each to the in-bounds scan whose row-major position it is. */
  ghost predicate IsIndex(h: Shape, m: map<nat, Coord>) {
    && (forall n: nat :: n in m <==> n < TotalScans(h))
    && (forall n :: n in m ==> InBounds(h, m[n]) && FlatIndex(h, m[n]) == n)
  }

  /** Every present slot is a scan of inventory i. */
  ghost predicate InInventory(slots: seq<Option<Coord>>, i: int) {
    forall k :: 0 <= k < |slots| && slots[k].Some? ==> slots[k].value.inventory == i
  }

  /** No present slot follows a missing one. */
  ghost predicate MissingOnlyAtEnd(slots: seq<Option<Coord>>) {
    forall k, l :: 0 <= k < l < |slots| && slots[k].None? ==> slots[l].None?
  }

  /** No present slot precedes a missing one. */
  ghost predicate MissingOnlyAtStart(slots: seq<Option<Coord>>) {
    forall k, l :: 0 <= k < l < |slots| && slots[l].None? ==> slots[k].None?
  }

  lemma MissingAtEndAppend(a: seq<Option<Coord>>, b: seq<Option<Coord>>)
    requires MissingOnlyAtEnd(a) && MissingOnlyAtEnd(b)
    requires (a != [] && a[|a| - 1].None?) ==> forall k :: 0 <= k < |b| ==> b[k].None?
    ensures MissingOnlyAtEnd(a + b)
  {
  }

  lemma MissingAtStartPrepend(a: seq<Option<Coord>>, b: seq<Option<Coord>>)
    requires MissingOnlyAtStart(a) && MissingOnlyAtStart(b)
    requires (b != [] && b[0].None?) ==> forall k :: 0 <= k < |a| ==> a[k].None?
    ensures MissingOnlyAtStart(a + b)
  {
  }

  function Present(xs: seq<Coord>): (r: seq<Option<Coord>>)
    ensures |r| == |xs| && forall k :: 0 <= k < |xs| ==> r[k] == Some(xs[k])
  {
    seq(|xs|, k requires 0 <= k < |xs| => Some(xs[k]))
  }

  /** The index build of `__init__`: one pass over inventories, documents and
      scans with a running counter; it stops at the first empty document. */
  method BuildIndex(h: Shape) returns (r: Result<Index, ConstructionError>)
    ensures r.Success? <==> AllDocumentsNonEmpty(h)
    ensures r.Success? ==> IsIndex(h, r.value.idxToIdcs) && r.value.len == TotalScans(h)
    ensures r.Failure? ==>
      && r.error.EmptyDocument?
      && r.error.inventory < |h| && r.error.document < |h[r.error.inventory]|
      && h[r.error.inventory][r.error.document] == 0
      && forall i, j :: 0 <= i < |h| && 0 <= j < |h[i]| && Precedes(Coord(i, j, 0), Coord(r.error.inventory, r.error.document, 0)) ==> h[i][j] > 0
  {
    var m: map<nat, Coord> := map[];
    var idx: nat := 0;
    for i := 0 to |h|
      invariant idx == ScansBeforeInventory(h, i)
      invariant forall i', j' :: 0 <= i' < i && 0 <= j' < |h[i']| ==> h[i'][j'] > 0
      invariant forall n: nat :: n in m <==> n < idx
      invariant forall n :: n in m ==> InBounds(h, m[n]) && FlatIndex(h, m[n]) == n
    {
      ScansBeforeEnds(h, i);
      for j := 0 to |h[i]|
        invariant idx == ScansBefore(h, i, j)
        invariant forall i', j' :: 0 <= i' < i && 0 <= j' < |h[i']| ==> h[i'][j'] > 0
        invariant forall j' :: 0 <= j' < j ==> h[i][j'] > 0
        invariant forall n: nat :: n in m <==> n < idx
        invariant forall n :: n in m ==> InBounds(h, m[n]) && FlatIndex(h, m[n]) == n
      {
        if h[i][j] < 1 {
          return Failure(EmptyDocument(i, j));
        }
        for k := 0 to h[i][j]
          invariant idx == ScansBefore(h, i, j) + k
          invariant forall n: nat :: n in m <==> n < idx
          invariant forall n :: n in m ==> InBounds(h, m[n]) && FlatIndex(h, m[n]) == n
        {
          m := m[idx := Coord(i, j, k)];
          idx := idx + 1;
        }
        ScansBeforeStep(h, i, j);
      }
    }
    return Success(Index(m, idx));
  }

  /** `random_choice_except(high, excluding)`: a draw c from [0, high - 1)
      shifted past `excluding`; the result is any value of [0, high) except
      `excluding`. */
  function RandomChoiceExcept(high: int, excluding: int, choice: nat): (r: nat)
    requires excluding < high
    requires choice < high - 1
    ensures r < high && r != excluding
    ensures r == choice || r == choice + 1
  {
    if choice >= excluding then choice + 1 else choice
  }

  /** Every value other than `excluding` is drawn by exactly one choice, so a
      uniform choice gives a uniform result. */
  lemma RandomChoiceExceptBijective(high: int, excluding: nat, v: nat, c1: nat, c2: nat)
    requires excluding < high
    requires c1 < high - 1 && c2 < high - 1
    ensures c1 < c2 ==> RandomChoiceExcept(high, excluding, c1) < RandomChoiceExcept(high, excluding, c2)
    ensures v < high && v != excluding ==>
      var c := if v > excluding then v - 1 else v;
      c < high - 1 && RandomChoiceExcept(high, excluding, c) == v
  {
  }

  class DocumentSeparationDataset {
    const imagePaths: Shape
    const mode: Mode
    const idxToIdcs: map<nat, Coord>
    const len: nat
    const numberOfImages: nat
    const stepsBack: nat
    const stepsForward: nat
    const sampleSameInventory: bool
    const wrapRound: bool
    const probShuffleDocument: real
    const probRandomizeDocumentOrder: real
    const probRandomScanInsert: real
    /** The two halves of the centre's shuffled document, left behind by
        `FillNextPrevScans` for the walks of the same `__getitem__` call. */
    var nextScans: seq<Coord>
    var prevScans: seq<Coord>

    ghost predicate Valid()
      reads this
    {
      && AllDocumentsNonEmpty(imagePaths)
      && IsIndex(imagePaths, idxToIdcs) && len == TotalScans(imagePaths)
      && numberOfImages > 0
      && stepsBack == numberOfImages / 2 + 1
      && stepsForward == numberOfImages + 1 - stepsBack
      && (forall x :: x in nextScans ==> InBounds(imagePaths, x))
      && (forall x :: x in prevScans ==> InBounds(imagePaths, x))
    }

    /** The assignments of `__init__` once the index is built and the number of
        images is checked. */
    constructor (imagePaths: Shape, mode: Mode, index: Index, numberOfImages: nat,
                 sampleSameInventory: bool, wrapRound: bool,
                 probShuffleDocument: real, probRandomizeDocumentOrder: real, probRandomScanInsert: real)
      requires AllDocumentsNonEmpty(imagePaths) && IsIndex(imagePaths, index.idxToIdcs)
      requires index.len == TotalScans(imagePaths) && numberOfImages > 0
      ensures Valid()
      ensures this.imagePaths == imagePaths && this.mode == mode
      ensures idxToIdcs == index.idxToIdcs && len == index.len && this.numberOfImages == numberOfImages
      ensures this.sampleSameInventory == sampleSameInventory && this.wrapRound == wrapRound
      ensures this.probShuffleDocument == probShuffleDocument
      ensures this.probRandomizeDocumentOrder == probRandomizeDocumentOrder
      ensures this.probRandomScanInsert == probRandomScanInsert
      ensures nextScans == [] && prevScans == []
      ensures stepsBack >= 1 && stepsForward >= 1 && stepsBack + stepsForward == numberOfImages + 1
      ensures stepsBack == (numberOfImages + 2) / 2
    {
      this.imagePaths := imagePaths;
      this.mode := mode;
      idxToIdcs := index.idxToIdcs;
      len := index.len;
      this.numberOfImages := numberOfImages;
      stepsBack := numberOfImages / 2 + 1;
      stepsForward := numberOfImages + 1 - (numberOfImages / 2 + 1);
      this.sampleSameInventory := sampleSameInventory;
      this.wrapRound := wrapRound;
      this.probShuffleDocument := probShuffleDocument;
      this.probRandomizeDocumentOrder := probRandomizeDocumentOrder;
      this.probRandomScanInsert := probRandomScanInsert;
      nextScans := [];
      prevScans := [];
    }

    /** `__init__`: builds the index, then checks `number_of_images`; either
        check aborts construction. */
    static method Create(imagePaths: Shape, mode: Mode, numberOfImages: int,
                         sampleSameInventory: bool, wrapRound: bool,
                         probShuffleDocument: real, probRandomizeDocumentOrder: real, probRandomScanInsert: real)
      returns (r: Result<DocumentSeparationDataset, ConstructionError>)
      ensures r.Failure? <==> !AllDocumentsNonEmpty(imagePaths) || numberOfImages <= 0
      ensures r.Failure? ==> (r.error.EmptyDocument? <==> !AllDocumentsNonEmpty(imagePaths))
      ensures r.Success? ==>
        && fresh(r.value) && r.value.Valid()
        && r.value.imagePaths == imagePaths && r.value.mode == mode
        && r.value.len == TotalScans(imagePaths) && r.value.numberOfImages == numberOfImages
        && r.value.stepsBack + r.value.stepsForward == numberOfImages + 1
        && r.value.sampleSameInventory == sampleSameInventory && r.value.wrapRound == wrapRound
        && r.value.probShuffleDocument == probShuffleDocument
        && r.value.probRandomizeDocumentOrder == probRandomizeDocumentOrder
        && r.value.probRandomScanInsert == probRandomScanInsert
        && r.value.nextScans == [] && r.value.prevScans == []
    {
      var index := BuildIndex(imagePaths);
      if index.Failure? {
        return Failure(index.error);
      }
      if numberOfImages <= 0 {
        return Failure(NonPositiveNumberOfImages);
      }
      var d := new DocumentSeparationDataset(imagePaths, mode, index.value, numberOfImages, sampleSameInventory,
                                             wrapRound, probShuffleDocument, probRandomizeDocumentOrder, probRandomScanInsert);
      return Success(d);
    }

    /** `is_out_of_bounds`: true iff the triple is not a scan of the hierarchy. */
    function IsOutOfBounds(inventory: int, document: int, scan: int): (r: bool)
      ensures r <==> !InBounds(imagePaths, Coord(inventory, document, scan))
    {
      inventory < 0 || document < 0 || scan < 0
      || inventory >= |imagePaths| || document >= |imagePaths[inventory]|
      || scan >= imagePaths[inventory][document]
    }

    /** `scan_in_document`: the scan bound alone, for an existing document. */
    function ScanInDocument(inventory: int, document: int, scan: int): (r: bool)
      requires 0 <= inventory < |imagePaths| && 0 <= document < |imagePaths[inventory]|
      ensures r <==> !IsOutOfBounds(inventory, document, scan)
    {
      0 <= scan < imagePaths[inventory][document]
    }

    /** `get_first_document`: a document with no previous document. */
    function GetFirstDocument(inventory: int): (r: DocRef)
      ensures r.inventory == inventory && GetPrevDocument(r.inventory, r.document).None?
      ensures 0 <= inventory < |imagePaths| && |imagePaths[inventory]| > 0 ==> DocumentInBounds(imagePaths, r)
    {
      DocRef(inventory, 0)
    }

    /** `get_last_document`: a document with no next document. */
    function GetLastDocument(inventory: int): (r: DocRef)
      requires 0 <= inventory < |imagePaths|
      ensures r.inventory == inventory && GetNextDocument(r.inventory, r.document).None?
      ensures |imagePaths[inventory]| > 0 ==> DocumentInBounds(imagePaths, r)
    {
      DocRef(inventory, |imagePaths[inventory]| - 1)
    }

    /** `get_next_document`: the following document of the same inventory, None
        exactly at the inventory's last document. */
    function GetNextDocument(inventory: int, document: int): (r: Option<DocRef>)
      ensures r.Some? <==> !IsOutOfBounds(inventory, document + 1, 0)
      ensures r.Some? ==> r.value == DocRef(inventory, document + 1)
      ensures AllDocumentsNonEmpty(imagePaths) && DocumentInBounds(imagePaths, DocRef(inventory, document)) ==>
        (r.None? <==> document == |imagePaths[inventory]| - 1)
    {
      if IsOutOfBounds(inventory, document + 1, 0) then None else Some(DocRef(inventory, document + 1))
    }

    /** `get_prev_document`: the preceding document of the same inventory, None
        exactly at the inventory's first document. */
    function GetPrevDocument(inventory: int, document: int): (r: Option<DocRef>)
      ensures r.Some? <==> !IsOutOfBounds(inventory, document - 1, 0)
      ensures r.Some? ==> r.value == DocRef(inventory, document - 1)
      ensures AllDocumentsNonEmpty(imagePaths) && DocumentInBounds(imagePaths, DocRef(inventory, document)) ==>
        (r.None? <==> document == 0)
    {
      if IsOutOfBounds(inventory, document - 1, 0) then None else Some(DocRef(inventory, document - 1))
    }

    /** `get_first_inventory`: an inventory with no previous inventory. */
    function GetFirstInventory(): (r: int)
      ensures GetPrevInventory(r).None?
      ensures |imagePaths| > 0 ==> 0 <= r < |imagePaths|
    {
      0
    }

    /** `get_last_inventory`: an inventory with no next inventory. */
    function GetLastInventory(): (r: int)
      ensures GetNextInventory(r).None?
      ensures |imagePaths| > 0 ==> 0 <= r < |imagePaths|
    {
      |imagePaths| - 1
    }

    /** `get_next_inventory`: None exactly at the last inventory. */
    function GetNextInventory(inventory: int): (r: Option<int>)
      ensures r.Some? <==> !IsOutOfBounds(inventory + 1, 0, 0)
      ensures r.Some? ==> r.value == inventory + 1
      ensures AllNonEmpty(imagePaths) && 0 <= inventory < |imagePaths| ==> (r.None? <==> inventory == |imagePaths| - 1)
    {
      if IsOutOfBounds(inventory + 1, 0, 0) then None else Some(inventory + 1)
    }

    /** `get_prev_inventory`: None exactly at the first inventory. */
    function GetPrevInventory(inventory: int): (r: Option<int>)
      ensures r.Some? <==> !IsOutOfBounds(inventory - 1, 0, 0)
      ensures r.Some? ==> r.value == inventory - 1
      ensures AllNonEmpty(imagePaths) && 0 <= inventory < |imagePaths| ==> (r.None? <==> inventory == 0)
    {
      if IsOutOfBounds(inventory - 1, 0, 0) then None else Some(inventory - 1)
    }

    /** `get_all_scans_in_document`: every scan of the document, each once, in
        ascending order; empty when the document does not exist. */
    function GetAllScansInDocument(inventory: int, document: int): (r: seq<Coord>)
      ensures forall c :: c in r <==> InBounds(imagePaths, c) && c.inventory == inventory && c.document == document
      ensures forall k :: 0 <= k < |r| ==> r[k].scan == k
      ensures DocumentInBounds(imagePaths, DocRef(inventory, document)) ==> |r| == imagePaths[inventory][document]
    {
      if IsOutOfBounds(inventory, document, 0) then []
      else
        var r := seq(imagePaths[inventory][document], k => Coord(inventory, document, k));
        assert forall c :: InBounds(imagePaths, c) && c.inventory == inventory && c.document == document ==> r[c.scan] == c;
        r
    }
  
    /** What `fill_next_prev_scans` leaves for scan c: either nothing (the
        document is taken in its natural order), or the scans of c's document
        split around c in some order, every one of them exactly once. */
    ghost predicate FilledFor(c: Coord)
      reads this
    {
      || (nextScans == [] && prevScans == [])
      || (&& multiset(prevScans + [c] + nextScans) == multiset(GetAllScansInDocument(c.inventory, c.document))
          && forall x :: x in prevScans + nextScans ==> x.inventory == c.inventory && x.document == c.document)
    }

    /** The buffers `fill_next_prev_scans` leaves for scan c when its coin is
        read at t0: the two halves of c's document shuffled with the following
        draws when the coin fires on a document of several scans, and nothing
        otherwise. */
    ghost predicate ShuffledHalves(c: Coord, rng: Rng, t0: nat)
      requires InBounds(imagePaths, c)
      reads this
    {
      if Fires(probShuffleDocument, rng, t0) && imagePaths[c.inventory][c.document] > 1 then
        prevScans + [c] + nextScans == Shuffle(GetAllScansInDocument(c.inventory, c.document), rng.integer, t0 + 1).0
      else
        nextScans == [] && prevScans == []
    }

    /** `fill_next_prev_scans`: with probability `probShuffleDocument` the
        centre's document is shuffled and split at the centre scan into the
        scans shown before it and the scans shown after it; otherwise, or when
        the document has a single scan, both halves are left empty. */
    method FillNextPrevScans(c: Coord, rng: Rng, t0: nat) returns (t: nat)
      requires Valid() && InBounds(imagePaths, c)
      modifies this`nextScans, this`prevScans
      ensures Valid() && FilledFor(c)
      ensures Fires(probShuffleDocument, rng, t0) && imagePaths[c.inventory][c.document] > 1 ==>
        var shuffled := Shuffle(GetAllScansInDocument(c.inventory, c.document), rng.integer, t0 + 1);
        prevScans + [c] + nextScans == shuffled.0 && t == shuffled.1
      ensures !Fires(probShuffleDocument, rng, t0) || imagePaths[c.inventory][c.document] == 1 ==>
        nextScans == [] && prevScans == [] && t == t0 + 1
    {
      nextScans := [];
      prevScans := [];
      t := t0 + 1;
      if Fires(probShuffleDocument, rng, t0) {
        var allScans := GetAllScansInDocument(c.inventory, c.document);
        if |allScans| == 1 {
          return;
        }
        var shuffled;
        shuffled, t := Shuffle(allScans, rng.integer, t).0, Shuffle(allScans, rng.integer, t).1;
        ShufflePermutes(allScans, rng.integer, t0 + 1);
        assert Distinct(allScans) by {
          forall i, j | 0 <= i < j < |allScans| ensures allScans[i] != allScans[j] {
            assert allScans[i].scan == i && allScans[j].scan == j;
          }
        }
        assert c in multiset(shuffled) by {
          assert c in allScans;
        }
        assert forall x :: x in shuffled ==> InBounds(imagePaths, x) && x.inventory == c.inventory && x.document == c.document by {
          forall x | x in shuffled ensures InBounds(imagePaths, x) && x.inventory == c.inventory && x.document == c.document {
            assert x in multiset(allScans);
          }
        }
        SplitAround(shuffled, c);
      }
    }

    /** The loop of `fill_next_prev_scans` over the shuffled document: the
        scans met before c go to `prevScans`, those met after it to
        `nextScans`, both in the shuffled order. */
    method SplitAround(shuffled: seq<Coord>, c: Coord)
      requires Distinct(shuffled) && c in shuffled && nextScans == [] && prevScans == []
      modifies this`nextScans, this`prevScans
      ensures prevScans + [c] + nextScans == shuffled
    {
      ghost var p :| 0 <= p < |shuffled| && shuffled[p] == c;
      var beforeScan, afterScan := true, false;
      for i := 0 to |shuffled|
        invariant beforeScan == (i <= p) && afterScan == !beforeScan
        invariant prevScans == shuffled[..if i <= p then i else p]
        invariant nextScans == if i <= p then [] else shuffled[p + 1..i]
      {
        if shuffled[i] == c {
          beforeScan := false;
          afterScan := true;
          continue;
        }
        if beforeScan {
          prevScans := prevScans + [shuffled[i]];
        } else if afterScan {
          nextScans := nextScans + [shuffled[i]];
        }
      }
    }

    /** `get_next_scans_in_document`: the scans after c in its document, taken
        from the shuffled halves when there are any, and otherwise those with a
        higher scan number in ascending order. */
    function GetNextScansInDocument(c: Coord): (r: seq<Coord>)
      reads this
      requires nextScans != [] || prevScans != [] || InBounds(imagePaths, c)
      ensures nextScans != [] || prevScans != [] ==> r == nextScans
      ensures nextScans == [] && prevScans == [] ==>
        r == GetAllScansInDocument(c.inventory, c.document)[c.scan + 1..]
    {
      if nextScans != [] || prevScans != [] then nextScans
      else seq(imagePaths[c.inventory][c.document] - c.scan - 1, k => Coord(c.inventory, c.document, c.scan + 1 + k))
    }

    /** `get_prev_scans_in_document`: the scans before c in its document, taken
        from the shuffled halves when there are any, and otherwise those with a
        lower scan number in ascending order. */
    function GetPrevScansInDocument(c: Coord): (r: seq<Coord>)
      reads this
      requires nextScans != [] || prevScans != [] || InBounds(imagePaths, c)
      ensures nextScans != [] || prevScans != [] ==> r == prevScans
      ensures nextScans == [] && prevScans == [] ==>
        r == GetAllScansInDocument(c.inventory, c.document)[..c.scan]
    {
      if nextScans != [] || prevScans != [] then prevScans
      else seq(c.scan, k => Coord(c.inventory, c.document, k))
    }
  
    /** The randomised branch shared by both walk steps: another document of
        the same inventory (`random_choice_except` over the documents), or any
        document of another inventory (`random_choice_except` over the
        inventories, then `np.random.choice` over its documents). The first
        draw fails on an empty range: a single document, or a single inventory. */
    function RandomDocument(at: DocRef, rng: Rng, t: nat): (r: Result<(DocRef, nat), SampleError>)
      requires AllNonEmpty(imagePaths) && DocumentInBounds(imagePaths, at)
      ensures r.Failure? <==> if sampleSameInventory then |imagePaths[at.inventory]| == 1 else |imagePaths| == 1
      ensures r.Success? ==> DocumentInBounds(imagePaths, r.value.0) && r.value.0 != at
      ensures r.Success? ==> (sampleSameInventory <==> r.value.0.inventory == at.inventory)
      ensures r.Success? ==> r.value.1 > t
    {
      if sampleSameInventory then
        var n := |imagePaths[at.inventory]|;
        if n - 1 == 0 then Failure(EmptyChoice)
        else Success((DocRef(at.inventory, RandomChoiceExcept(n, at.document, Choice(rng, t, n - 1))), t + 1))
      else
        var m := |imagePaths|;
        if m - 1 == 0 then Failure(EmptyChoice)
        else
          var inventory := RandomChoiceExcept(m, at.inventory, Choice(rng, t, m - 1));
          Success((DocRef(inventory, Choice(rng, t + 1, |imagePaths[inventory]|)), t + 2))
    }

    /** The scans a walk step yields for document d: every scan of d exactly
        once, in some order. */
    ghost predicate Entered(scans: seq<Coord>, d: DocRef) {
      && DocumentInBounds(imagePaths, d)
      && |scans| == imagePaths[d.inventory][d.document]
      && multiset(scans) == multiset(GetAllScansInDocument(d.inventory, d.document))
      && forall x :: x in scans ==> InBounds(imagePaths, x) && x.inventory == d.inventory && x.document == d.document
    }

    /** The common tail of both walk steps: the scans of d, shuffled with
        probability `probShuffleDocument`. */
    function EnterDocument(d: DocRef, rng: Rng, t: nat): (r: Step)
      requires DocumentInBounds(imagePaths, d)
      ensures r.scans.Some? && Entered(r.scans.value, d) && r.at == d && r.t > t
      ensures !Fires(probShuffleDocument, rng, t) ==> r.scans.value == GetAllScansInDocument(d.inventory, d.document)
      ensures Fires(probShuffleDocument, rng, t) ==>
        r.scans.value == Shuffle(GetAllScansInDocument(d.inventory, d.document), rng.integer, t + 1).0
      ensures rng.Valid() && probShuffleDocument <= 0.0 ==> r.scans.value == GetAllScansInDocument(d.inventory, d.document)
      ensures var n := imagePaths[d.inventory][d.document];
        r.t == if Fires(probShuffleDocument, rng, t) && n > 1 then t + n else t + 1
    {
      var scans := GetAllScansInDocument(d.inventory, d.document);
      if Fires(probShuffleDocument, rng, t) then
        var shuffled := Shuffle(scans, rng.integer, t + 1);
        ShufflePermutes(scans, rng.integer, t + 1);
        assert forall x :: x in shuffled.0 ==> x in multiset(scans);
        Step(Some(shuffled.0), d, shuffled.1)
      else
        Step(Some(scans), d, t + 1)
    }

    /** `get_scans_in_next_document`: the scans of the document after `at`, or
        of a random other document with probability
        `probRandomizeDocumentOrder`; past the inventory's last document the
        walk wraps round when `wrapRound` is set and stops with None at `at`
        otherwise. */
    function GetScansInNextDocument(at: DocRef, rng: Rng, t0: nat): (r: Result<Step, SampleError>)
      requires AllNonEmpty(imagePaths) && DocumentInBounds(imagePaths, at)
      ensures r.Success? ==> r.value.t > t0
      ensures r.Failure? ==>
        Fires(probRandomizeDocumentOrder, rng, t0)
        && if sampleSameInventory then |imagePaths[at.inventory]| == 1 else |imagePaths| == 1
      ensures r.Success? && r.value.scans.Some? ==> Entered(r.value.scans.value, r.value.at)
      ensures r.Success? && r.value.scans.None? ==>
        !wrapRound && r.value.at == at && at.document == |imagePaths[at.inventory]| - 1
      ensures r.Success? && r.value.scans.Some? && sampleSameInventory ==> r.value.at.inventory == at.inventory
      ensures Fires(probRandomizeDocumentOrder, rng, t0) && r.Success? ==>
        r.value.scans.Some? && r.value.at != at && (sampleSameInventory <==> r.value.at.inventory == at.inventory)
      ensures !Fires(probRandomizeDocumentOrder, rng, t0) ==>
        r.Success? &&
        if at.document + 1 < |imagePaths[at.inventory]| then
          r.value.scans.Some? && r.value.at == DocRef(at.inventory, at.document + 1)
        else if !wrapRound then r.value.scans.None?
        else if sampleSameInventory then r.value.scans.Some? && r.value.at == DocRef(at.inventory, 0)
        else r.value.scans.Some? && r.value.at == DocRef(if at.inventory + 1 < |imagePaths| then at.inventory + 1 else 0, 0)
      ensures rng.Valid() && probShuffleDocument <= 0.0 && r.Success? && r.value.scans.Some? ==>
        r.value.scans.value == GetAllScansInDocument(r.value.at.inventory, r.value.at.document)
      ensures !Fires(probRandomizeDocumentOrder, rng, t0) && r.Success? && r.value.scans.Some? ==>
        r.value == EnterDocument(r.value.at, rng, t0 + 1)
      ensures Fires(probRandomizeDocumentOrder, rng, t0) ==>
        var d := RandomDocument(at, rng, t0 + 1);
        && (r.Success? <==> d.Success?)
        && (r.Success? ==> r.value == EnterDocument(d.value.0, rng, d.value.1))
    {
      var picked: (Option<DocRef>, nat) :-
        if Fires(probRandomizeDocumentOrder, rng, t0) then
          var d :- RandomDocument(at, rng, t0 + 1);
          Success((Some(d.0), d.1))
        else
          Success((GetNextDocument(at.inventory, at.document), t0 + 1));
      var (next, t1) := picked;
      if next.None? && !wrapRound then Success(Step(None, at, t1))
      else
        var d :=
          if next.Some? then next.value
          else if sampleSameInventory then GetFirstDocument(at.inventory)
          else GetFirstDocument(match GetNextInventory(at.inventory) case Some(i) => i case None => GetFirstInventory());
        Success(EnterDocument(d, rng, t1))
    }

    /** `get_scans_in_prev_document`: the mirror image of
        `GetScansInNextDocument`, walking to the previous document and wrapping
        round to the last document of the same or the previous inventory. */
    function GetScansInPrevDocument(at: DocRef, rng: Rng, t0: nat): (r: Result<Step, SampleError>)
      requires AllNonEmpty(imagePaths) && DocumentInBounds(imagePaths, at)
      ensures r.Success? ==> r.value.t > t0
      ensures r.Failure? ==>
        Fires(probRandomizeDocumentOrder, rng, t0)
        && if sampleSameInventory then |imagePaths[at.inventory]| == 1 else |imagePaths| == 1
      ensures r.Success? && r.value.scans.Some? ==> Entered(r.value.scans.value, r.value.at)
      ensures r.Success? && r.value.scans.None? ==> !wrapRound && r.value.at == at && at.document == 0
      ensures r.Success? && r.value.scans.Some? && sampleSameInventory ==> r.value.at.inventory == at.inventory
      ensures Fires(probRandomizeDocumentOrder, rng, t0) && r.Success? ==>
        r.value.scans.Some? && r.value.at != at && (sampleSameInventory <==> r.value.at.inventory == at.inventory)
      ensures !Fires(probRandomizeDocumentOrder, rng, t0) ==>
        r.Success? &&
        if at.document > 0 then
          r.value.scans.Some? && r.value.at == DocRef(at.inventory, at.document - 1)
        else if !wrapRound then r.value.scans.None?
        else if sampleSameInventory then
          r.value.scans.Some? && r.value.at == DocRef(at.inventory, |imagePaths[at.inventory]| - 1)
        else
          var i := if at.inventory > 0 then at.inventory - 1 else |imagePaths| - 1;
          r.value.scans.Some? && r.value.at == DocRef(i, |imagePaths[i]| - 1)
      ensures rng.Valid() && probShuffleDocument <= 0.0 && r.Success? && r.value.scans.Some? ==>
        r.value.scans.value == GetAllScansInDocument(r.value.at.inventory, r.value.at.document)
      ensures !Fires(probRandomizeDocumentOrder, rng, t0) && r.Success? && r.value.scans.Some? ==>
        r.value == EnterDocument(r.value.at, rng, t0 + 1)
      ensures Fires(probRandomizeDocumentOrder, rng, t0) ==>
        var d := RandomDocument(at, rng, t0 + 1);
        && (r.Success? <==> d.Success?)
        && (r.Success? ==> r.value == EnterDocument(d.value.0, rng, d.value.1))
    {
      var picked: (Option<DocRef>, nat) :-
        if Fires(probRandomizeDocumentOrder, rng, t0) then
          var d :- RandomDocument(at, rng, t0 + 1);
          Success((Some(d.0), d.1))
        else
          Success((GetPrevDocument(at.inventory, at.document), t0 + 1));
      var (prev, t1) := picked;
      if prev.None? && !wrapRound then Success(Step(None, at, t1))
      else
        var d :=
          if prev.Some? then prev.value
          else if sampleSameInventory then GetLastDocument(at.inventory)
          else GetLastDocument(match GetPrevInventory(at.inventory) case Some(i) => i case None => GetLastInventory());
        Success(EnterDocument(d, rng, t1))
    }
  
    /** The draws are such that nothing random happens while a window is built:
        no shuffling, no random document order, and no wrap-around. */
    ghost predicate NoRandomWalk(rng: Rng) {
      rng.Valid() && !wrapRound && probShuffleDocument <= 0.0 && probRandomizeDocumentOrder <= 0.0
    }

    /** What holds of every walk, random or not: present slots are scans of the
        hierarchy, none is missing under wrap-around, and all stay in c's
        inventory when sampling from the same inventory. */
    ghost predicate WalkSlots(c: Coord, slots: seq<Option<Coord>>) {
      && (forall k :: 0 <= k < |slots| && slots[k].Some? ==> InBounds(imagePaths, slots[k].value))
      && (wrapRound ==> forall k :: 0 <= k < |slots| ==> slots[k].Some?)
      && (sampleSameInventory ==> forall k :: 0 <= k < |slots| && slots[k].Some? ==> slots[k].value.inventory == c.inventory)
    }

    /** The walk steps in order without wrap-around: no document is ever
        drawn at random. */
    ghost predicate SequentialWalk(rng: Rng) {
      rng.Valid() && !wrapRound && probRandomizeDocumentOrder <= 0.0
    }

    /** The scans of a document, in order, are the slots at its row-major
        positions. */
    lemma DocumentFlat(d: DocRef)
      requires DocumentInBounds(imagePaths, d)
      ensures FlatFrom(imagePaths, d.inventory, ScansBefore(imagePaths, d.inventory, d.document),
                       Present(GetAllScansInDocument(d.inventory, d.document)))
    {
      var all := GetAllScansInDocument(d.inventory, d.document);
      var base := ScansBefore(imagePaths, d.inventory, d.document);
      forall k | 0 <= k < |all| ensures FlatSlot(imagePaths, d.inventory, base + k, Present(all)[k]) {
        assert all[k] == Coord(d.inventory, d.document, k);
        FlatIndexBounds(imagePaths, all[k]);
      }
    }

    lemma WalkSlotsAppend(c: Coord, a: seq<Option<Coord>>, b: seq<Option<Coord>>)
      requires WalkSlots(c, a) && WalkSlots(c, b)
      ensures WalkSlots(c, a + b)
    {
    }

    lemma WalkSlotsSlice(c: Coord, a: seq<Option<Coord>>, lo: nat, hi: nat)
      requires WalkSlots(c, a) && lo <= hi <= |a|
      ensures WalkSlots(c, a[lo..hi])
    {
      assert forall k :: 0 <= k < hi - lo ==> a[lo..hi][k] == a[lo + k];
    }

    /** The scans a walk step enters are good slots. */
    lemma WalkSlotsEntered(c: Coord, scans: seq<Coord>, d: DocRef)
      requires Entered(scans, d) && (sampleSameInventory ==> d.inventory == c.inventory)
      ensures WalkSlots(c, Present(scans))
    {
      forall k | 0 <= k < |scans| ensures InBounds(imagePaths, scans[k]) && scans[k].inventory == d.inventory {
        assert scans[k] in scans;
      }
    }

    /** The scans of c's own document that start both walks are good slots. */
    lemma WalkSlotsStart(c: Coord)
      requires Valid() && InBounds(imagePaths, c) && FilledFor(c)
      ensures WalkSlots(c, Present(GetNextScansInDocument(c)))
      ensures WalkSlots(c, Present(GetPrevScansInDocument(c)))
    {
      var next, prev := GetNextScansInDocument(c), GetPrevScansInDocument(c);
      forall k | 0 <= k < |next| ensures InBounds(imagePaths, next[k]) && next[k].inventory == c.inventory {
        assert next[k] in next;
        if nextScans != [] || prevScans != [] {
          assert next[k] in prevScans + nextScans;
        }
      }
      forall k | 0 <= k < |prev| ensures InBounds(imagePaths, prev[k]) && prev[k].inventory == c.inventory {
        assert prev[k] in prev;
        if nextScans != [] || prevScans != [] {
          assert prev[k] in prevScans + nextScans;
        }
      }
    }

    /** One forward step without randomness keeps the slots at their row-major
        positions: the next document's scans when there is one, else a missing
        slot past the end of the inventory. */
    lemma NextStepFlat(inv: int, f: int, idcs: seq<Option<Coord>>, at: DocRef, next: Option<seq<Coord>>, at': DocRef)
      requires DocumentInBounds(imagePaths, at) && at.inventory == inv
      requires FlatFrom(imagePaths, inv, f + 1, idcs)
      requires || f + 1 + |idcs| == ScansBefore(imagePaths, inv, at.document + 1)
               || (at.document == |imagePaths[inv]| - 1 && f + 1 + |idcs| >= ScansBefore(imagePaths, inv, at.document + 1))
      requires if at.document + 1 < |imagePaths[inv]| then
          next == Some(GetAllScansInDocument(inv, at.document + 1)) && at' == DocRef(inv, at.document + 1)
        else next.None? && at' == at
      ensures var idcs' := idcs + (if next.None? then [None] else Present(next.value));
        && FlatFrom(imagePaths, inv, f + 1, idcs')
        && (|| f + 1 + |idcs'| == ScansBefore(imagePaths, inv, at'.document + 1)
            || (at'.document == |imagePaths[inv]| - 1 && f + 1 + |idcs'| >= ScansBefore(imagePaths, inv, at'.document + 1)))
    {
      if next.None? {
        NextStepPastEnd(inv, f, idcs, at);
      } else {
        NextStepDocument(inv, f, idcs, at);
      }
    }

    lemma NextStepPastEnd(inv: int, f: int, idcs: seq<Option<Coord>>, at: DocRef)
      requires DocumentInBounds(imagePaths, at) && at.inventory == inv && at.document == |imagePaths[inv]| - 1
      requires FlatFrom(imagePaths, inv, f + 1, idcs) && f + 1 + |idcs| >= ScansBefore(imagePaths, inv, at.document + 1)
      ensures FlatFrom(imagePaths, inv, f + 1, idcs + [None])
    {
      ScansBeforeEnds(imagePaths, inv);
      FlatFromAppend(imagePaths, inv, f + 1, idcs, [None]);
    }

    lemma NextStepDocument(inv: int, f: int, idcs: seq<Option<Coord>>, at: DocRef)
      requires DocumentInBounds(imagePaths, at) && at.inventory == inv && at.document + 1 < |imagePaths[inv]|
      requires FlatFrom(imagePaths, inv, f + 1, idcs) && f + 1 + |idcs| == ScansBefore(imagePaths, inv, at.document + 1)
      ensures var next := Present(GetAllScansInDocument(inv, at.document + 1));
        && FlatFrom(imagePaths, inv, f + 1, idcs + next)
        && f + 1 + |idcs| + |next| == ScansBefore(imagePaths, inv, at.document + 2)
    {
      var d := DocRef(inv, at.document + 1);
      DocumentFlat(d);
      FlatFromAppend(imagePaths, inv, f + 1, idcs, Present(GetAllScansInDocument(inv, d.document)));
      ScansBeforeStep(imagePaths, inv, d.document);
    }

    /** The backward counterpart of `NextStepFlat`: the previous document's
        scans go in front, or a missing slot before the start of the inventory. */
    lemma PrevStepFlat(inv: int, f: int, idcs: seq<Option<Coord>>, at: DocRef, prev: Option<seq<Coord>>, at': DocRef)
      requires DocumentInBounds(imagePaths, at) && at.inventory == inv
      requires FlatFrom(imagePaths, inv, f - |idcs|, idcs)
      requires || f - |idcs| == ScansBefore(imagePaths, inv, at.document)
               || (at.document == 0 && f - |idcs| <= ScansBefore(imagePaths, inv, at.document))
      requires if at.document > 0 then
          prev == Some(GetAllScansInDocument(inv, at.document - 1)) && at' == DocRef(inv, at.document - 1)
        else prev.None? && at' == at
      ensures var idcs' := (if prev.None? then [None] else Present(prev.value)) + idcs;
        && FlatFrom(imagePaths, inv, f - |idcs'|, idcs')
        && (|| f - |idcs'| == ScansBefore(imagePaths, inv, at'.document)
            || (at'.document == 0 && f - |idcs'| <= ScansBefore(imagePaths, inv, at'.document)))
    {
      if prev.None? {
        PrevStepPastStart(inv, f, idcs, at);
      } else {
        PrevStepDocument(inv, f, idcs, at);
      }
    }

    lemma PrevStepPastStart(inv: int, f: int, idcs: seq<Option<Coord>>, at: DocRef)
      requires DocumentInBounds(imagePaths, at) && at.inventory == inv && at.document == 0
      requires FlatFrom(imagePaths, inv, f - |idcs|, idcs) && f - |idcs| <= ScansBefore(imagePaths, inv, 0)
      ensures FlatFrom(imagePaths, inv, f - |idcs| - 1, [None] + idcs)
    {
      ScansBeforeEnds(imagePaths, inv);
      FlatFromAppend(imagePaths, inv, f - |idcs| - 1, [None], idcs);
    }

    lemma PrevStepDocument(inv: int, f: int, idcs: seq<Option<Coord>>, at: DocRef)
      requires DocumentInBounds(imagePaths, at) && at.inventory == inv && at.document > 0
      requires FlatFrom(imagePaths, inv, f - |idcs|, idcs) && f - |idcs| == ScansBefore(imagePaths, inv, at.document)
      ensures var prev := Present(GetAllScansInDocument(inv, at.document - 1));
        && FlatFrom(imagePaths, inv, f - |idcs| - |prev|, prev + idcs)
        && f - |idcs| - |prev| == ScansBefore(imagePaths, inv, at.document - 1)
    {
      var d := DocRef(inv, at.document - 1);
      var prev := Present(GetAllScansInDocument(inv, d.document));
      DocumentFlat(d);
      ScansBeforeStep(imagePaths, inv, d.document);
      FlatFromAppend(imagePaths, inv, f - |idcs| - |prev|, prev, idcs);
    }

    /** The slots a walk step adds: the entered document's scans, or one
        missing slot. */
    static function StepSlots(scans: Option<seq<Coord>>): (r: seq<Option<Coord>>)
      ensures scans.None? ==> r == [None]
      ensures scans.Some? ==> r == Present(scans.value)
    {
      if scans.None? then [None] else Present(scans.value)
    }

    /** The loop invariant of `get_next_idcs`, with `natural` standing for a
        walk without randomness from a document taken in natural order. */
    ghost predicate ForwardWalk(c: Coord, sequential: bool, natural: bool, idcs: seq<Option<Coord>>, at: DocRef)
      requires InBounds(imagePaths, c)
    {
      && DocumentInBounds(imagePaths, at)
      && WalkSlots(c, idcs)
      && (sampleSameInventory ==> at.inventory == c.inventory)
      && (sequential ==>
          && at.inventory == c.inventory && InInventory(idcs, c.inventory) && MissingOnlyAtEnd(idcs)
          && (|idcs| > 0 && idcs[|idcs| - 1].None? ==> at.document == |imagePaths[c.inventory]| - 1))
      && (natural ==>
          var f := FlatIndex(imagePaths, c);
          && at.inventory == c.inventory
          && FlatFrom(imagePaths, c.inventory, f + 1, idcs)
          && (|| f + 1 + |idcs| == ScansBefore(imagePaths, c.inventory, at.document + 1)
              || (at.document == |imagePaths[c.inventory]| - 1
                  && f + 1 + |idcs| >= ScansBefore(imagePaths, c.inventory, at.document + 1))))
    }

    /** The loop invariant of `get_previous_idcs`. */
    ghost predicate BackwardWalk(c: Coord, sequential: bool, natural: bool, idcs: seq<Option<Coord>>, at: DocRef)
      requires InBounds(imagePaths, c)
    {
      && DocumentInBounds(imagePaths, at)
      && WalkSlots(c, idcs)
      && (sampleSameInventory ==> at.inventory == c.inventory)
      && (sequential ==>
          && at.inventory == c.inventory && InInventory(idcs, c.inventory) && MissingOnlyAtStart(idcs)
          && (|idcs| > 0 && idcs[0].None? ==> at.document == 0))
      && (natural ==>
          var f := FlatIndex(imagePaths, c);
          && at.inventory == c.inventory
          && FlatFrom(imagePaths, c.inventory, f - |idcs|, idcs)
          && (|| f - |idcs| == ScansBefore(imagePaths, c.inventory, at.document)
              || (at.document == 0 && f - |idcs| <= ScansBefore(imagePaths, c.inventory, at.document))))
    }

    lemma ForwardWalkStart(c: Coord, rng: Rng)
      requires Valid() && InBounds(imagePaths, c) && FilledFor(c)
      ensures ForwardWalk(c, SequentialWalk(rng), NoRandomWalk(rng) && nextScans == [] && prevScans == [],
                          Present(GetNextScansInDocument(c)), DocRef(c.inventory, c.document))
    {
      WalkSlotsStart(c);
      if nextScans == [] && prevScans == [] {
        NextScansFlat(c);
      }
    }

    /** The scans after c in its document sit at the flat positions right
        after c's, up to the end of the document. */
    lemma NextScansFlat(c: Coord)
      requires InBounds(imagePaths, c)
      ensures var next := Present(GetAllScansInDocument(c.inventory, c.document)[c.scan + 1..]);
        && FlatFrom(imagePaths, c.inventory, FlatIndex(imagePaths, c) + 1, next)
        && FlatIndex(imagePaths, c) + 1 + |next| == ScansBefore(imagePaths, c.inventory, c.document + 1)
    {
      var inv := c.inventory;
      var all := GetAllScansInDocument(inv, c.document);
      DocumentFlat(DocRef(inv, c.document));
      FlatFromSlice(imagePaths, inv, ScansBefore(imagePaths, inv, c.document), Present(all), c.scan + 1, |all|);
      assert Present(all)[c.scan + 1..|all|] == Present(all[c.scan + 1..]);
      ScansBeforeStep(imagePaths, inv, c.document);
    }

    lemma BackwardWalkStart(c: Coord, rng: Rng)
      requires Valid() && InBounds(imagePaths, c) && FilledFor(c)
      ensures BackwardWalk(c, SequentialWalk(rng), NoRandomWalk(rng) && nextScans == [] && prevScans == [],
                           Present(GetPrevScansInDocument(c)), DocRef(c.inventory, c.document))
    {
      WalkSlotsStart(c);
      if nextScans == [] && prevScans == [] {
        PrevScansFlat(c);
      }
    }

    /** The scans before c in its document sit at the flat positions from the
        start of the document up to just before c's. */
    lemma PrevScansFlat(c: Coord)
      requires InBounds(imagePaths, c)
      ensures var prev := Present(GetAllScansInDocument(c.inventory, c.document)[..c.scan]);
        && FlatFrom(imagePaths, c.inventory, FlatIndex(imagePaths, c) - |prev|, prev)
        && FlatIndex(imagePaths, c) - |prev| == ScansBefore(imagePaths, c.inventory, c.document)
    {
      var inv := c.inventory;
      var all := GetAllScansInDocument(inv, c.document);
      DocumentFlat(DocRef(inv, c.document));
      FlatFromSlice(imagePaths, inv, ScansBefore(imagePaths, inv, c.document), Present(all), 0, c.scan);
      assert Present(all)[0..c.scan] == Present(all[..c.scan]);
    }

    /** Each forward step keeps the loop invariant. */
    lemma ForwardWalkStep(c: Coord, rng: Rng, sequential: bool, natural: bool, idcs: seq<Option<Coord>>, at: DocRef, t: nat)
      requires AllNonEmpty(imagePaths) && InBounds(imagePaths, c)
      requires (sequential ==> SequentialWalk(rng)) && (natural ==> NoRandomWalk(rng))
      requires ForwardWalk(c, sequential, natural, idcs, at)
      requires GetScansInNextDocument(at, rng, t).Success?
      ensures var step := GetScansInNextDocument(at, rng, t).value;
        ForwardWalk(c, sequential, natural, idcs + StepSlots(step.scans), step.at)
    {
      var step := GetScansInNextDocument(at, rng, t).value;
      ForwardStepKeeps(c, sequential, natural, idcs, at, step.scans, step.at);
    }

    /** The forward loop invariant after appending the slots of a step that
        entered `scans` of document at' (or stopped at the inventory's end). */
    lemma ForwardStepKeeps(c: Coord, sequential: bool, natural: bool, idcs: seq<Option<Coord>>, at: DocRef,
                           scans: Option<seq<Coord>>, at': DocRef)
      requires AllNonEmpty(imagePaths) && InBounds(imagePaths, c)
      requires ForwardWalk(c, sequential, natural, idcs, at)
      requires DocumentInBounds(imagePaths, at')
      requires scans.Some? ==> Entered(scans.value, at')
      requires scans.None? ==> !wrapRound && at' == at && at.document == |imagePaths[at.inventory]| - 1
      requires sampleSameInventory ==> at'.inventory == at.inventory
      requires sequential ==> at'.inventory == at.inventory && (scans.Some? ==> at.document + 1 < |imagePaths[at.inventory]|)
      requires natural ==>
        if at.document + 1 < |imagePaths[at.inventory]| then
          scans == Some(GetAllScansInDocument(at.inventory, at.document + 1)) && at' == DocRef(at.inventory, at.document + 1)
        else scans.None? && at' == at
      ensures ForwardWalk(c, sequential, natural, idcs + StepSlots(scans), at')
    {
      if scans.Some? {
        WalkSlotsEntered(c, scans.value, at');
      }
      WalkSlotsAppend(c, idcs, StepSlots(scans));
      if sequential {
        ForwardStepSequential(c, idcs, at, scans, at');
      }
      if natural {
        NextStepFlat(c.inventory, FlatIndex(imagePaths, c), idcs, at, scans, at');
      }
    }

    /** The sequential part of `ForwardStepKeeps`: the slots stay in c's
        inventory and a missing slot is only ever followed by missing ones. */
    lemma ForwardStepSequential(c: Coord, idcs: seq<Option<Coord>>, at: DocRef, scans: Option<seq<Coord>>, at': DocRef)
      requires InBounds(imagePaths, c) && DocumentInBounds(imagePaths, at)
      requires at.inventory == c.inventory && InInventory(idcs, c.inventory) && MissingOnlyAtEnd(idcs)
      requires |idcs| > 0 && idcs[|idcs| - 1].None? ==> at.document == |imagePaths[c.inventory]| - 1
      requires scans.Some? ==> Entered(scans.value, at') && at.document + 1 < |imagePaths[at.inventory]|
      requires scans.None? ==> at' == at && at.document == |imagePaths[at.inventory]| - 1
      requires at'.inventory == at.inventory
      ensures var idcs' := idcs + StepSlots(scans);
        && InInventory(idcs', c.inventory) && MissingOnlyAtEnd(idcs')
        && (|idcs'| > 0 && idcs'[|idcs'| - 1].None? ==> at'.document == |imagePaths[c.inventory]| - 1)
    {
      var added := StepSlots(scans);
      assert InInventory(added, c.inventory) by {
        if scans.Some? {
          forall k | 0 <= k < |added| ensures added[k].value.inventory == c.inventory {
            assert scans.value[k] in scans.value;
          }
        }
      }
      assert scans.Some? ==> idcs == [] || idcs[|idcs| - 1].Some?;
      MissingAtEndAppend(idcs, added);
    }

    /** Each backward step keeps the loop invariant. */
    lemma BackwardWalkStep(c: Coord, rng: Rng, sequential: bool, natural: bool, idcs: seq<Option<Coord>>, at: DocRef, t: nat)
      requires AllNonEmpty(imagePaths) && InBounds(imagePaths, c)
      requires (sequential ==> SequentialWalk(rng)) && (natural ==> NoRandomWalk(rng))
      requires BackwardWalk(c, sequential, natural, idcs, at)
      requires GetScansInPrevDocument(at, rng, t).Success?
      ensures var step := GetScansInPrevDocument(at, rng, t).value;
        BackwardWalk(c, sequential, natural, StepSlots(step.scans) + idcs, step.at)
    {
      var step := GetScansInPrevDocument(at, rng, t).value;
      BackwardStepKeeps(c, sequential, natural, idcs, at, step.scans, step.at);
    }

    /** The backward loop invariant after prepending the slots of a step that
        entered `scans` of document at' (or stopped at the inventory's start). */
    lemma BackwardStepKeeps(c: Coord, sequential: bool, natural: bool, idcs: seq<Option<Coord>>, at: DocRef,
                            scans: Option<seq<Coord>>, at': DocRef)
      requires AllNonEmpty(imagePaths) && InBounds(imagePaths, c)
      requires BackwardWalk(c, sequential, natural, idcs, at)
      requires DocumentInBounds(imagePaths, at')
      requires scans.Some? ==> Entered(scans.value, at')
      requires scans.None? ==> !wrapRound && at' == at && at.document == 0
      requires sampleSameInventory ==> at'.inventory == at.inventory
      requires sequential ==> at'.inventory == at.inventory && (scans.Some? ==> at.document > 0)
      requires natural ==>
        if at.document > 0 then
          scans == Some(GetAllScansInDocument(at.inventory, at.document - 1)) && at' == DocRef(at.inventory, at.document - 1)
        else scans.None? && at' == at
      ensures BackwardWalk(c, sequential, natural, StepSlots(scans) + idcs, at')
    {
      if scans.Some? {
        WalkSlotsEntered(c, scans.value, at');
      }
      WalkSlotsAppend(c, StepSlots(scans), idcs);
      if sequential {
        BackwardStepSequential(c, idcs, at, scans, at');
      }
      if natural {
        PrevStepFlat(c.inventory, FlatIndex(imagePaths, c), idcs, at, scans, at');
      }
    }

    /** The sequential part of `BackwardStepKeeps`: the slots stay in c's
        inventory and a missing slot is only ever preceded by missing ones. */
    lemma BackwardStepSequential(c: Coord, idcs: seq<Option<Coord>>, at: DocRef, scans: Option<seq<Coord>>, at': DocRef)
      requires InBounds(imagePaths, c) && DocumentInBounds(imagePaths, at)
      requires at.inventory == c.inventory && InInventory(idcs, c.inventory) && MissingOnlyAtStart(idcs)
      requires |idcs| > 0 && idcs[0].None? ==> at.document == 0
      requires scans.Some? ==> Entered(scans.value, at') && at.document > 0
      requires scans.None? ==> at' == at && at.document == 0
      requires at'.inventory == at.inventory
      ensures var idcs' := StepSlots(scans) + idcs;
        && InInventory(idcs', c.inventory) && MissingOnlyAtStart(idcs')
        && (|idcs'| > 0 && idcs'[0].None? ==> at'.document == 0)
    {
      var added := StepSlots(scans);
      assert InInventory(added, c.inventory) by {
        if scans.Some? {
          forall k | 0 <= k < |added| ensures added[k].value.inventory == c.inventory {
            assert scans.value[k] in scans.value;
          }
        }
      }
      assert scans.Some? ==> idcs == [] || idcs[0].Some?;
      MissingAtStartPrepend(added, idcs);
    }

    /** What the first `stepsForward` slots `w` of a finished forward walk
        keep: slots of c's inventory (or of any, when inventories may change),
        missing only at the end when the walk is sequential, and the scans at
        the row-major positions after c, all missing past the inventory's last
        scan, when there is no randomness at all. */
    ghost predicate ForwardCut(c: Coord, sequential: bool, natural: bool, w: seq<Option<Coord>>)
      requires InBounds(imagePaths, c)
    {
      && WalkSlots(c, w)
      && (sequential ==> InInventory(w, c.inventory) && MissingOnlyAtEnd(w))
      && (natural ==> FlatFrom(imagePaths, c.inventory, FlatIndex(imagePaths, c) + 1, w))
      && (natural && c.document == |imagePaths[c.inventory]| - 1 && c.scan == imagePaths[c.inventory][c.document] - 1 ==>
            forall k :: 0 <= k < |w| ==> w[k].None?)
    }

    /** The backward counterpart of `ForwardCut`, for the last `stepsBack`
        slots of a finished backward walk. */
    ghost predicate BackCut(c: Coord, sequential: bool, natural: bool, w: seq<Option<Coord>>)
      requires InBounds(imagePaths, c)
    {
      && WalkSlots(c, w)
      && (sequential ==> InInventory(w, c.inventory) && MissingOnlyAtStart(w))
      && (natural ==> FlatFrom(imagePaths, c.inventory, FlatIndex(imagePaths, c) - stepsBack, w))
      && (natural && c.document == 0 && c.scan == 0 ==> forall k :: 0 <= k < |w| ==> w[k].None?)
    }

    /** A forward walk that cannot fail when sequential and whose cut keeps
        `ForwardCut`. */
    ghost predicate ForwardWalkKept(c: Coord, sequential: bool, natural: bool, r: Result<(seq<Option<Coord>>, nat), SampleError>)
      requires InBounds(imagePaths, c)
    {
      && (sequential ==> r.Success?)
      && (r.Success? ==> |r.value.0| >= stepsForward && ForwardCut(c, sequential, natural, r.value.0[..stepsForward]))
    }

    /** A backward walk that cannot fail when sequential and whose cut keeps
        `BackCut`. */
    ghost predicate BackWalkKept(c: Coord, sequential: bool, natural: bool, r: Result<(seq<Option<Coord>>, nat), SampleError>)
      requires InBounds(imagePaths, c)
    {
      && (sequential ==> r.Success?)
      && (r.Success? ==> |r.value.0| >= stepsBack && BackCut(c, sequential, natural, r.value.0[|r.value.0| - stepsBack..]))
    }

    /** Once the forward walk has enough slots, the first `stepsForward` of
        them keep what the loop invariant promises. */
    lemma ForwardWalkDone(c: Coord, sequential: bool, natural: bool, idcs: seq<Option<Coord>>, at: DocRef)
      requires InBounds(imagePaths, c) && ForwardWalk(c, sequential, natural, idcs, at)
      requires |idcs| >= stepsForward
      ensures ForwardCut(c, sequential, natural, idcs[..stepsForward])
    {
      var r := idcs[..stepsForward];
      WalkSlotsSlice(c, idcs, 0, stepsForward);
      assert idcs[0..stepsForward] == r;
      if natural {
        var f := FlatIndex(imagePaths, c);
        FlatFromSlice(imagePaths, c.inventory, f + 1, idcs, 0, stepsForward);
        if c.document == |imagePaths[c.inventory]| - 1 && c.scan == imagePaths[c.inventory][c.document] - 1 {
          ScansBeforeStep(imagePaths, c.inventory, c.document);
          ScansBeforeEnds(imagePaths, c.inventory);
          FlatFromOutside(imagePaths, c.inventory, f + 1, r);
        }
      }
    }

    /** Once the backward walk has enough slots, the last `stepsBack` of them
        keep what the loop invariant promises. */
    lemma BackwardWalkDone(c: Coord, sequential: bool, natural: bool, idcs: seq<Option<Coord>>, at: DocRef)
      requires InBounds(imagePaths, c) && BackwardWalk(c, sequential, natural, idcs, at)
      requires |idcs| >= stepsBack
      ensures BackCut(c, sequential, natural, idcs[|idcs| - stepsBack..])
    {
      var lo := |idcs| - stepsBack;
      var r := idcs[lo..];
      WalkSlotsSlice(c, idcs, lo, |idcs|);
      assert idcs[lo..|idcs|] == r;
      if natural {
        var f := FlatIndex(imagePaths, c);
        FlatFromSlice(imagePaths, c.inventory, f - |idcs|, idcs, lo, |idcs|);
        if c.document == 0 && c.scan == 0 {
          ScansBeforeEnds(imagePaths, c.inventory);
          FlatFromOutside(imagePaths, c.inventory, f - stepsBack, r);
        }
      }
    }

    /** The loop of `get_next_idcs` as a recursive reference: from the slots
        `idcs` gathered so far and the document `at` last entered, walk steps
        are appended until there are at least `stepsForward` slots; the result
        holds all the slots, before the cut, and the next stream position. */
    function NextWalk(idcs: seq<Option<Coord>>, at: DocRef, rng: Rng, t: nat): (r: Result<(seq<Option<Coord>>, nat), SampleError>)
      requires AllNonEmpty(imagePaths) && DocumentInBounds(imagePaths, at)
      ensures r.Success? ==> |r.value.0| >= stepsForward && idcs <= r.value.0 && r.value.1 >= t
      ensures |idcs| >= stepsForward ==> r == Success((idcs, t))
      decreases stepsForward - |idcs|, 2
    {
      if |idcs| >= stepsForward then Success((idcs, t)) else NextWalkMore(idcs, at, rng, t)
    }

    /** `NextWalk` when more slots are needed: a level of its own, so that
        unfolding the walk once does not reach the document step. */
    function NextWalkMore(idcs: seq<Option<Coord>>, at: DocRef, rng: Rng, t: nat): (r: Result<(seq<Option<Coord>>, nat), SampleError>)
      requires AllNonEmpty(imagePaths) && DocumentInBounds(imagePaths, at) && |idcs| < stepsForward
      ensures r.Success? ==> |r.value.0| >= stepsForward && idcs <= r.value.0 && r.value.1 >= t
      decreases stepsForward - |idcs|, 1
    {
      NextWalkStep(idcs, at, rng, t)
    }

    /** One step of `NextWalk` when more slots are needed. */
    function NextWalkStep(idcs: seq<Option<Coord>>, at: DocRef, rng: Rng, t: nat): (r: Result<(seq<Option<Coord>>, nat), SampleError>)
      requires AllNonEmpty(imagePaths) && DocumentInBounds(imagePaths, at) && |idcs| < stepsForward
      ensures r.Success? ==> |r.value.0| >= stepsForward && idcs <= r.value.0 && r.value.1 >= t
      decreases stepsForward - |idcs|, 0
    {
      var step :- GetScansInNextDocument(at, rng, t);
      assert step.scans.Some? ==> |step.scans.value| == imagePaths[step.at.inventory][step.at.document] > 0;
      var rest := NextWalk(idcs + StepSlots(step.scans), step.at, rng, step.t);
      assert rest.Success? ==> idcs <= idcs + StepSlots(step.scans) <= rest.value.0;
      rest
    }

    /** The loop of `get_previous_idcs` as a recursive reference: walk steps
        are put in front of `idcs` until there are at least `stepsBack` slots. */
    function PrevWalk(idcs: seq<Option<Coord>>, at: DocRef, rng: Rng, t: nat): (r: Result<(seq<Option<Coord>>, nat), SampleError>)
      requires AllNonEmpty(imagePaths) && DocumentInBounds(imagePaths, at)
      ensures r.Success? ==> |r.value.0| >= stepsBack && |r.value.0| >= |idcs| && r.value.1 >= t
      ensures |idcs| >= stepsBack ==> r == Success((idcs, t))
      decreases stepsBack - |idcs|, 2
    {
      if |idcs| >= stepsBack then Success((idcs, t)) else PrevWalkMore(idcs, at, rng, t)
    }

    /** `PrevWalk` when more slots are needed: a level of its own, so that
        unfolding the walk once does not reach the document step. */
    function PrevWalkMore(idcs: seq<Option<Coord>>, at: DocRef, rng: Rng, t: nat): (r: Result<(seq<Option<Coord>>, nat), SampleError>)
      requires AllNonEmpty(imagePaths) && DocumentInBounds(imagePaths, at) && |idcs| < stepsBack
      ensures r.Success? ==> |r.value.0| >= stepsBack && |r.value.0| >= |idcs| && r.value.1 >= t
      decreases stepsBack - |idcs|, 1
    {
      PrevWalkStep(idcs, at, rng, t)
    }

    /** One step of `PrevWalk` when more slots are needed. */
    function PrevWalkStep(idcs: seq<Option<Coord>>, at: DocRef, rng: Rng, t: nat): (r: Result<(seq<Option<Coord>>, nat), SampleError>)
      requires AllNonEmpty(imagePaths) && DocumentInBounds(imagePaths, at) && |idcs| < stepsBack
      ensures r.Success? ==> |r.value.0| >= stepsBack && |r.value.0| >= |idcs| && r.value.1 >= t
      decreases stepsBack - |idcs|, 0
    {
      var step :- GetScansInPrevDocument(at, rng, t);
      assert step.scans.Some? ==> |step.scans.value| == imagePaths[step.at.inventory][step.at.document] > 0;
      PrevWalk(StepSlots(step.scans) + idcs, step.at, rng, step.t)
    }

    /** The backward walk only ever puts slots in front: the slots it starts
        from are the end of the slots it yields. */
    lemma {:induction false} PrevWalkKeepsEnd(idcs: seq<Option<Coord>>, at: DocRef, rng: Rng, t: nat)
      requires AllNonEmpty(imagePaths) && DocumentInBounds(imagePaths, at)
      ensures var r := PrevWalk(idcs, at, rng, t);
        r.Success? ==> r.value.0[|r.value.0| - |idcs|..] == idcs
      decreases stepsBack - |idcs|
    {
      if |idcs| < stepsBack {
        var step := GetScansInPrevDocument(at, rng, t);
        PrevWalkUnfold(idcs, at, rng, t);
        if step.Success? {
          var front, at', t' := StepSlots(step.value.scans), step.value.at, step.value.t;
          assert |front| > 0 by {
            assert step.value.scans.Some? ==> |step.value.scans.value| == imagePaths[at'.inventory][at'.document] > 0;
          }
          PrevWalkKeepsEnd(front + idcs, at', rng, t');
          var r := PrevWalk(front + idcs, at', rng, t');
          if r.Success? {
            var all := r.value.0;
            assert all[|all| - |front + idcs|..] == front + idcs;
            assert all[|all| - |idcs|..] == all[|all| - |front + idcs|..][|front|..];
          }
        }
      }
    }

    /** One turn of the loop of `get_previous_idcs` is one unfolding of
        `PrevWalk`: a failing step fails the walk, and a successful one leaves
        the rest of the walk to the extended slots. */
    lemma PrevWalkUnfold(idcs: seq<Option<Coord>>, at: DocRef, rng: Rng, t: nat)
      requires AllNonEmpty(imagePaths) && DocumentInBounds(imagePaths, at) && |idcs| < stepsBack
      ensures var step := GetScansInPrevDocument(at, rng, t);
        && (step.Failure? ==> PrevWalk(idcs, at, rng, t) == Failure(step.error))
        && (step.Success? ==>
              PrevWalk(idcs, at, rng, t) == PrevWalk(StepSlots(step.value.scans) + idcs, step.value.at, rng, step.value.t))
        && (step.Success? ==> |StepSlots(step.value.scans)| > 0)
        && (SequentialWalk(rng) ==> step.Success?)
    {
      assert PrevWalk(idcs, at, rng, t) == PrevWalkMore(idcs, at, rng, t) == PrevWalkStep(idcs, at, rng, t);
    }

    /** One turn of the loop of `get_next_idcs` is one unfolding of
        `NextWalk`. */
    lemma NextWalkUnfold(idcs: seq<Option<Coord>>, at: DocRef, rng: Rng, t: nat)
      requires AllNonEmpty(imagePaths) && DocumentInBounds(imagePaths, at) && |idcs| < stepsForward
      ensures var step := GetScansInNextDocument(at, rng, t);
        && (step.Failure? ==> NextWalk(idcs, at, rng, t) == Failure(step.error))
        && (step.Success? ==>
              NextWalk(idcs, at, rng, t) == NextWalk(idcs + StepSlots(step.value.scans), step.value.at, rng, step.value.t))
        && (step.Success? ==> |StepSlots(step.value.scans)| > 0)
        && (SequentialWalk(rng) ==> step.Success?)
    {
      assert NextWalk(idcs, at, rng, t) == NextWalkMore(idcs, at, rng, t) == NextWalkStep(idcs, at, rng, t);
    }

    /** What the forward walk yields, cut to `stepsForward` slots, from a state
        that satisfies the loop invariant: in-bounds and confined slots; within
        c's inventory with missing slots only at the end when no document is
        drawn at random and nothing wraps round (and then the walk cannot
        fail); and, with no randomness at all, the scans at the row-major
        positions after c, all missing when c is the inventory's last scan. */
    lemma {:induction false} NextWalkKeeps(c: Coord, rng: Rng, sequential: bool, natural: bool,
                                           idcs: seq<Option<Coord>>, at: DocRef, t: nat)
      requires AllNonEmpty(imagePaths) && InBounds(imagePaths, c)
      requires (sequential ==> SequentialWalk(rng)) && (natural ==> NoRandomWalk(rng))
      requires ForwardWalk(c, sequential, natural, idcs, at)
      ensures ForwardWalkKept(c, sequential, natural, NextWalk(idcs, at, rng, t))
      decreases stepsForward - |idcs|
    {
      if |idcs| >= stepsForward {
        ForwardWalkDone(c, sequential, natural, idcs, at);
      } else {
        var step := GetScansInNextDocument(at, rng, t);
        NextWalkUnfold(idcs, at, rng, t);
        if step.Success? {
          ForwardWalkStep(c, rng, sequential, natural, idcs, at, t);
          NextWalkKeeps(c, rng, sequential, natural, idcs + StepSlots(step.value.scans), step.value.at, step.value.t);
        }
      }
    }

    /** The backward counterpart of `NextWalkKeeps`, for the last `stepsBack`
        slots: missing slots only at the start, the scans at the row-major
        positions before c, all missing when c is the inventory's first scan. */
    lemma {:induction false} PrevWalkKeeps(c: Coord, rng: Rng, sequential: bool, natural: bool,
                                           idcs: seq<Option<Coord>>, at: DocRef, t: nat)
      requires AllNonEmpty(imagePaths) && InBounds(imagePaths, c)
      requires (sequential ==> SequentialWalk(rng)) && (natural ==> NoRandomWalk(rng))
      requires BackwardWalk(c, sequential, natural, idcs, at)
      ensures BackWalkKept(c, sequential, natural, PrevWalk(idcs, at, rng, t))
      decreases stepsBack - |idcs|
    {
      if |idcs| >= stepsBack {
        BackwardWalkDone(c, sequential, natural, idcs, at);
      } else {
        var step := GetScansInPrevDocument(at, rng, t);
        PrevWalkUnfold(idcs, at, rng, t);
        if step.Success? {
          BackwardWalkStep(c, rng, sequential, natural, idcs, at, t);
          PrevWalkKeeps(c, rng, sequential, natural, StepSlots(step.value.scans) + idcs, step.value.at, step.value.t);
        }
      }
    }

    /** `get_next_idcs`: the scans after c in its document, then whole
        documents from successive walk steps (a missing slot for each step that
        stops at an edge), cut to `stepsForward` slots. */
    method GetNextIdcs(c: Coord, rng: Rng, t0: nat) returns (r: Result<seq<Option<Coord>>, SampleError>, t: nat)
      requires Valid() && AllNonEmpty(imagePaths) && InBounds(imagePaths, c) && FilledFor(c)
      ensures t >= t0
      ensures var walk := NextWalk(Present(GetNextScansInDocument(c)), DocRef(c.inventory, c.document), rng, t0);
        && (r.Success? <==> walk.Success?)
        && (r.Success? ==> r.value == walk.value.0[..stepsForward] && t == walk.value.1)
      ensures r.Success? ==> |r.value| == stepsForward
    {
      r, t := WalkForward(Present(GetNextScansInDocument(c)), DocRef(c.inventory, c.document), rng, t0);
    }

    /** What `get_next_idcs` yields, as the cut of the forward walk from c:
        in-bounds and confined slots; within c's inventory, with missing slots
        only at the end and no failure, when no document is drawn at random and
        nothing wraps round; and with no randomness and no shuffled halves,
        the scans at the row-major positions after c, all missing when c is
        its inventory's last scan. */
    lemma NextIdcsKeeps(c: Coord, rng: Rng, t0: nat)
      requires Valid() && AllNonEmpty(imagePaths) && InBounds(imagePaths, c) && FilledFor(c)
      ensures var walk := NextWalk(Present(GetNextScansInDocument(c)), DocRef(c.inventory, c.document), rng, t0);
        var natural := NoRandomWalk(rng) && nextScans == [] && prevScans == [];
        && (SequentialWalk(rng) ==> walk.Success?)
        && (walk.Success? ==>
              var w := walk.value.0[..stepsForward];
              && WalkSlots(c, w)
              && (SequentialWalk(rng) ==> InInventory(w, c.inventory) && MissingOnlyAtEnd(w))
              && (natural ==> FlatFrom(imagePaths, c.inventory, FlatIndex(imagePaths, c) + 1, w))
              && (natural && c.document == |imagePaths[c.inventory]| - 1 && c.scan == imagePaths[c.inventory][c.document] - 1 ==>
                    forall k :: 0 <= k < |w| ==> w[k].None?))
    {
      ForwardWalkStart(c, rng);
      NextWalkKeeps(c, rng, SequentialWalk(rng), NoRandomWalk(rng) && nextScans == [] && prevScans == [],
                    Present(GetNextScansInDocument(c)), DocRef(c.inventory, c.document), t0);
    }

    /** The loop of `get_next_idcs`: append walk steps to `idcs` until there
        are `stepsForward` slots, then cut. */
    method WalkForward(idcs0: seq<Option<Coord>>, at0: DocRef, rng: Rng, t0: nat) returns (r: Result<seq<Option<Coord>>, SampleError>, t: nat)
      requires AllNonEmpty(imagePaths) && DocumentInBounds(imagePaths, at0)
      ensures var walk := NextWalk(idcs0, at0, rng, t0);
        && (r.Success? <==> walk.Success?)
        && (r.Success? ==> r.value == walk.value.0[..stepsForward] && t == walk.value.1)
      ensures t >= t0
    {
      var idcs, at := idcs0, at0;
      ghost var walk := NextWalk(idcs, at, rng, t0);
      t := t0;
      while |idcs| < stepsForward
        invariant t >= t0 && DocumentInBounds(imagePaths, at) && NextWalk(idcs, at, rng, t) == walk
        decreases stepsForward - |idcs|
      {
        var step := GetScansInNextDocument(at, rng, t);
        NextWalkUnfold(idcs, at, rng, t);
        if step.Failure? {
          return Failure(step.error), t;
        }
        assert step.value.scans.Some? ==>
          |step.value.scans.value| == imagePaths[step.value.at.inventory][step.value.at.document] > 0;
        idcs := idcs + StepSlots(step.value.scans);
        t := step.value.t;
        at := step.value.at;
      }
      return Success(idcs[..stepsForward]), t;
    }

    /** `get_previous_idcs`: the scans before c in its document, then whole
        documents from successive backward walk steps put in front (a missing
        slot in front for each step that stops at an edge), keeping the last
        `stepsBack` slots. */
    method GetPreviousIdcs(c: Coord, rng: Rng, t0: nat) returns (r: Result<seq<Option<Coord>>, SampleError>, t: nat)
      requires Valid() && AllNonEmpty(imagePaths) && InBounds(imagePaths, c) && FilledFor(c)
      ensures t >= t0
      ensures var walk := PrevWalk(Present(GetPrevScansInDocument(c)), DocRef(c.inventory, c.document), rng, t0);
        && (r.Success? <==> walk.Success?)
        && (r.Success? ==> r.value == walk.value.0[|walk.value.0| - stepsBack..] && t == walk.value.1)
      ensures r.Success? ==> |r.value| == stepsBack
    {
      r, t := WalkBackward(Present(GetPrevScansInDocument(c)), DocRef(c.inventory, c.document), rng, t0);
    }

    /** What `get_previous_idcs` yields, as the cut of the backward walk from
        c: the mirror image of `NextIdcsKeeps`, with missing slots only at the
        start, the scans at the row-major positions before c, all missing when
        c is its inventory's first scan. */
    lemma PrevIdcsKeeps(c: Coord, rng: Rng, t0: nat)
      requires Valid() && AllNonEmpty(imagePaths) && InBounds(imagePaths, c) && FilledFor(c)
      ensures var walk := PrevWalk(Present(GetPrevScansInDocument(c)), DocRef(c.inventory, c.document), rng, t0);
        var natural := NoRandomWalk(rng) && nextScans == [] && prevScans == [];
        && (SequentialWalk(rng) ==> walk.Success?)
        && (walk.Success? ==>
              var w := walk.value.0[|walk.value.0| - stepsBack..];
              && WalkSlots(c, w)
              && (SequentialWalk(rng) ==> InInventory(w, c.inventory) && MissingOnlyAtStart(w))
              && (natural ==> FlatFrom(imagePaths, c.inventory, FlatIndex(imagePaths, c) - stepsBack, w))
              && (natural && c.document == 0 && c.scan == 0 ==> forall k :: 0 <= k < |w| ==> w[k].None?))
    {
      BackwardWalkStart(c, rng);
      PrevWalkKeeps(c, rng, SequentialWalk(rng), NoRandomWalk(rng) && nextScans == [] && prevScans == [],
                    Present(GetPrevScansInDocument(c)), DocRef(c.inventory, c.document), t0);
    }

    /** The loop of `get_previous_idcs`: put walk steps in front of `idcs`
        until there are `stepsBack` slots, then keep the last `stepsBack`. */
    method WalkBackward(idcs0: seq<Option<Coord>>, at0: DocRef, rng: Rng, t0: nat) returns (r: Result<seq<Option<Coord>>, SampleError>, t: nat)
      requires AllNonEmpty(imagePaths) && DocumentInBounds(imagePaths, at0)
      ensures var walk := PrevWalk(idcs0, at0, rng, t0);
        && (r.Success? <==> walk.Success?)
        && (r.Success? ==> r.value == walk.value.0[|walk.value.0| - stepsBack..] && t == walk.value.1)
      ensures t >= t0
    {
      var idcs, at := idcs0, at0;
      ghost var walk := PrevWalk(idcs, at, rng, t0);
      t := t0;
      while |idcs| < stepsBack
        invariant t >= t0 && DocumentInBounds(imagePaths, at) && PrevWalk(idcs, at, rng, t) == walk
        decreases stepsBack - |idcs|
      {
        var step := GetScansInPrevDocument(at, rng, t);
        PrevWalkUnfold(idcs, at, rng, t);
        if step.Failure? {
          return Failure(step.error), t;
        }
        assert step.value.scans.Some? ==>
          |step.value.scans.value| == imagePaths[step.value.at.inventory][step.value.at.document] > 0;
        idcs := StepSlots(step.value.scans) + idcs;
        t := step.value.t;
        at := step.value.at;
      }
      return Success(idcs[|idcs| - stepsBack..]), t;
    }

    /** The draws of `insert_random_scan` for a window of `size` slots around
        `centre`: the coin, a position other than the middle, then a scan of a
        document other than the centre's (of the same inventory, or of a
        uniformly drawn inventory). None when the coin does not fire or there
        is no such document; the second component is the next stream position. */
    function RandomScanChoice(centre: Coord, size: nat, rng: Rng, t0: nat): (r: (Option<(nat, Coord)>, nat))
      requires AllDocumentsNonEmpty(imagePaths) && InBounds(imagePaths, centre) && size >= 2
      ensures r.0.Some? ==>
        var (position, scan) := r.0.value;
        && position < size && position != size / 2
        && InBounds(imagePaths, scan)
        && (scan.inventory, scan.document) != (centre.inventory, centre.document)
        && (sampleSameInventory ==> scan.inventory == centre.inventory)
      ensures r.1 > t0
      ensures !Fires(probRandomScanInsert, rng, t0) ==> r.0.None?
      ensures Fires(probRandomScanInsert, rng, t0) && sampleSameInventory ==>
        (r.0.None? <==> |imagePaths[centre.inventory]| == 1)
      ensures Fires(probRandomScanInsert, rng, t0) && !sampleSameInventory ==>
        var inventory := Choice(rng, t0 + 2, |imagePaths|);
        && (r.0.None? <==> |imagePaths[inventory]| == if inventory == centre.inventory then 1 else 0)
        && (r.0.Some? ==> r.0.value.1.inventory == inventory)
    {
      if !Fires(probRandomScanInsert, rng, t0) then (None, t0 + 1)
      else
        var position := RandomChoiceExcept(size, size / 2, Choice(rng, t0 + 1, size - 1));
        if sampleSameInventory then
          var documents := |imagePaths[centre.inventory]|;
          if documents - 1 == 0 then (None, t0 + 2)
          else
            var document := RandomChoiceExcept(documents, centre.document, Choice(rng, t0 + 2, documents - 1));
            var scan := Choice(rng, t0 + 3, imagePaths[centre.inventory][document]);
            (Some((position, Coord(centre.inventory, document, scan))), t0 + 4)
        else
          var inventory := Choice(rng, t0 + 2, |imagePaths|);
          var documents := |imagePaths[inventory]|;
          if inventory == centre.inventory then
            if documents - 1 == 0 then (None, t0 + 3)
            else
              var document := RandomChoiceExcept(documents, centre.document, Choice(rng, t0 + 3, documents - 1));
              var scan := Choice(rng, t0 + 4, imagePaths[inventory][document]);
              (Some((position, Coord(inventory, document, scan))), t0 + 5)
          else if documents == 0 then (None, t0 + 3)
          else
            var document := Choice(rng, t0 + 3, documents);
            var scan := Choice(rng, t0 + 4, imagePaths[inventory][document]);
            (Some((position, Coord(inventory, document, scan))), t0 + 5)
    }

    /** `insert_random_scan`: overwrites the drawn position of the window, in
        place, with the drawn scan; the middle slot is never touched. */
    method InsertRandomScan(idcs: array<Option<Coord>>, rng: Rng, t0: nat) returns (t: nat)
      requires Valid() && idcs.Length == numberOfImages + 2
      requires idcs[idcs.Length / 2].Some? && InBounds(imagePaths, idcs[idcs.Length / 2].value)
      modifies idcs
      ensures var choice := RandomScanChoice(old(idcs[idcs.Length / 2].value), idcs.Length, rng, t0);
        && t == choice.1
        && idcs[..] == if choice.0.None? then old(idcs[..]) else old(idcs[..])[choice.0.value.0 := Some(choice.0.value.1)]
      ensures idcs[idcs.Length / 2] == old(idcs[idcs.Length / 2])
    {
      var choice := RandomScanChoice(idcs[idcs.Length / 2].value, idcs.Length, rng, t0);
      t := choice.1;
      if choice.0.Some? {
        idcs[choice.0.value.0] := Some(choice.0.value.1);
      }
    }

    /** The stream position `fill_next_prev_scans` leaves for scan c: past
        the coin read at t0, and past the shuffle's draws when the coin fires
        on a document of several scans. */
    function FillCursor(c: Coord, rng: Rng, t0: nat): (t: nat)
      requires InBounds(imagePaths, c)
      ensures t > t0
      ensures t == t0 + 1 <==> !Fires(probShuffleDocument, rng, t0) || imagePaths[c.inventory][c.document] == 1
    {
      var n := imagePaths[c.inventory][c.document];
      if Fires(probShuffleDocument, rng, t0) && n > 1 then Shuffle(GetAllScansInDocument(c.inventory, c.document), rng.integer, t0 + 1).1
      else t0 + 1
    }

    /** The window around c that the two walks build from the buffers as they
        are, reading the stream from t: the last `stepsBack` slots of the
        backward walk, c, then the first `stepsForward` slots of the forward
        walk, with the stream position after both. */
    function WalkWindow(c: Coord, rng: Rng, t: nat): (r: Result<(seq<Option<Coord>>, nat), SampleError>)
      reads this
      requires Valid() && AllNonEmpty(imagePaths) && InBounds(imagePaths, c)
      ensures r.Success? ==> |r.value.0| == numberOfImages + 2 && r.value.0[stepsBack] == Some(c) && r.value.1 >= t
    {
      var back := PrevWalk(Present(GetPrevScansInDocument(c)), DocRef(c.inventory, c.document), rng, t);
      if back.Failure? then Failure(back.error)
      else
        var forward := NextWalk(Present(GetNextScansInDocument(c)), DocRef(c.inventory, c.document), rng, back.value.1);
        if forward.Failure? then Failure(forward.error)
        else Success((back.value.0[|back.value.0| - stepsBack..] + [Some(c)] + forward.value.0[..stepsForward], forward.value.1))
    }

    /** `WalkWindow` taken apart into its backward and forward walks. */
    lemma WalkWindowParts(c: Coord, rng: Rng, t: nat)
      requires Valid() && AllNonEmpty(imagePaths) && InBounds(imagePaths, c)
      ensures var back := PrevWalk(Present(GetPrevScansInDocument(c)), DocRef(c.inventory, c.document), rng, t);
        var window := WalkWindow(c, rng, t);
        && (back.Failure? ==> window.Failure?)
        && (back.Success? ==>
              var forward := NextWalk(Present(GetNextScansInDocument(c)), DocRef(c.inventory, c.document), rng, back.value.1);
              && (forward.Failure? ==> window.Failure?)
              && (forward.Success? ==>
                    window == Success((back.value.0[|back.value.0| - stepsBack..] + [Some(c)] + forward.value.0[..stepsForward], forward.value.1))))
    {
    }

    /** The two walks with c between them keep what each walk promises: the
        slots are in bounds and confined, and sit at their row-major positions
        when both halves do. */
    lemma JoinWindow(c: Coord, natural: bool, prev: seq<Option<Coord>>, next: seq<Option<Coord>>)
      requires InBounds(imagePaths, c) && |prev| == stepsBack
      requires WalkSlots(c, prev) && WalkSlots(c, next)
      requires natural ==>
        && FlatFrom(imagePaths, c.inventory, FlatIndex(imagePaths, c) - stepsBack, prev)
        && FlatFrom(imagePaths, c.inventory, FlatIndex(imagePaths, c) + 1, next)
      ensures WalkSlots(c, prev + [Some(c)] + next)
      ensures natural ==> FlatFrom(imagePaths, c.inventory, FlatIndex(imagePaths, c) - stepsBack, prev + [Some(c)] + next)
    {
      WalkSlotsAppend(c, prev, [Some(c)]);
      WalkSlotsAppend(c, prev + [Some(c)], next);
      if natural {
        var base := FlatIndex(imagePaths, c) - stepsBack;
        FlatIndexBounds(imagePaths, c);
        FlatFromAppend(imagePaths, c.inventory, base, prev, [Some(c)]);
        FlatFromAppend(imagePaths, c.inventory, base, prev + [Some(c)], next);
      }
    }

    /** The window of the two walks exists when no document is drawn at random
        and nothing wraps round. */
    lemma WalkWindowSequential(c: Coord, rng: Rng, t: nat)
      requires Valid() && AllNonEmpty(imagePaths) && InBounds(imagePaths, c) && FilledFor(c)
      ensures SequentialWalk(rng) ==> WalkWindow(c, rng, t).Success?
    {
      WalkWindowParts(c, rng, t);
      PrevIdcsKeeps(c, rng, t);
      var back := PrevWalk(Present(GetPrevScansInDocument(c)), DocRef(c.inventory, c.document), rng, t);
      if back.Success? {
        NextIdcsKeeps(c, rng, back.value.1);
      }
    }

    /** What the window of the two walks keeps: its slots are in bounds and
        confined; the walks cannot fail when no document is drawn at random and
        nothing wraps round; and with no randomness at all and no shuffled
        halves, the slots are the scans at the row-major positions around c. */
    lemma WalkWindowKeeps(c: Coord, rng: Rng, t: nat)
      requires Valid() && AllNonEmpty(imagePaths) && InBounds(imagePaths, c) && FilledFor(c)
      ensures var window := WalkWindow(c, rng, t);
        && (window.Success? ==> WalkSlots(c, window.value.0))
        && (SequentialWalk(rng) ==> window.Success?)
        && (NoRandomWalk(rng) && nextScans == [] && prevScans == [] ==>
              window.Success? && FlatFrom(imagePaths, c.inventory, FlatIndex(imagePaths, c) - stepsBack, window.value.0))
    {
      WalkWindowSequential(c, rng, t);
      WalkWindowParts(c, rng, t);
      var back := PrevWalk(Present(GetPrevScansInDocument(c)), DocRef(c.inventory, c.document), rng, t);
      if back.Success? {
        var forward := NextWalk(Present(GetNextScansInDocument(c)), DocRef(c.inventory, c.document), rng, back.value.1);
        if forward.Success? {
          WalkWindowJoined(c, rng, t, NoRandomWalk(rng) && nextScans == [] && prevScans == [], back, forward);
        }
      }
    }

    /** The cut of the backward walk from c: slots of c's inventory and,
        on the natural walk, the flat run that ends just before c. */
    lemma PrevCut(c: Coord, rng: Rng, t: nat, natural: bool)
      requires Valid() && AllNonEmpty(imagePaths) && InBounds(imagePaths, c) && FilledFor(c)
      requires natural ==> NoRandomWalk(rng) && nextScans == [] && prevScans == []
      ensures var walk := PrevWalk(Present(GetPrevScansInDocument(c)), DocRef(c.inventory, c.document), rng, t);
        walk.Success? ==>
          && |walk.value.0| >= stepsBack
          && WalkSlots(c, walk.value.0[|walk.value.0| - stepsBack..])
          && (natural ==> FlatFrom(imagePaths, c.inventory, FlatIndex(imagePaths, c) - stepsBack, walk.value.0[|walk.value.0| - stepsBack..]))
    {
      PrevIdcsKeeps(c, rng, t);
    }

    /** The cut of the forward walk from c: slots of c's inventory and, on
        the natural walk, the flat run that starts just after c. */
    lemma NextCut(c: Coord, rng: Rng, t: nat, natural: bool)
      requires Valid() && AllNonEmpty(imagePaths) && InBounds(imagePaths, c) && FilledFor(c)
      requires natural ==> NoRandomWalk(rng) && nextScans == [] && prevScans == []
      ensures var walk := NextWalk(Present(GetNextScansInDocument(c)), DocRef(c.inventory, c.document), rng, t);
        walk.Success? ==>
          && |walk.value.0| >= stepsForward
          && WalkSlots(c, walk.value.0[..stepsForward])
          && (natural ==> FlatFrom(imagePaths, c.inventory, FlatIndex(imagePaths, c) + 1, walk.value.0[..stepsForward]))
    {
      NextIdcsKeeps(c, rng, t);
    }

    /** The cuts of the two walks from c, with c between them, keep what
        each walk promises. */
    lemma WalkWindowJoined(c: Coord, rng: Rng, t: nat, natural: bool,
                           back: Result<(seq<Option<Coord>>, nat), SampleError>,
                           forward: Result<(seq<Option<Coord>>, nat), SampleError>)
      requires Valid() && AllNonEmpty(imagePaths) && InBounds(imagePaths, c) && FilledFor(c)
      requires natural ==> NoRandomWalk(rng) && nextScans == [] && prevScans == []
      requires back == PrevWalk(Present(GetPrevScansInDocument(c)), DocRef(c.inventory, c.document), rng, t) && back.Success?
      requires forward == NextWalk(Present(GetNextScansInDocument(c)), DocRef(c.inventory, c.document), rng, back.value.1) && forward.Success?
      ensures |back.value.0| >= stepsBack && |forward.value.0| >= stepsForward
      ensures WalkSlots(c, back.value.0[|back.value.0| - stepsBack..] + [Some(c)] + forward.value.0[..stepsForward])
      ensures natural ==> FlatFrom(imagePaths, c.inventory, FlatIndex(imagePaths, c) - stepsBack,
                                   back.value.0[|back.value.0| - stepsBack..] + [Some(c)] + forward.value.0[..stepsForward])
    {
      PrevCut(c, rng, t, natural);
      NextCut(c, rng, back.value.1, natural);
      JoinWindow(c, natural, back.value.0[|back.value.0| - stepsBack..], forward.value.0[..stepsForward]);
    }

    /** The walks of `__getitem__` from the buffers as they are: walk back
        `stepsBack` slots, add c, and walk forward `stepsForward` slots. */
    method WalkAround(c: Coord, rng: Rng, t0: nat) returns (r: Result<seq<Option<Coord>>, SampleError>, t: nat)
      requires Valid() && AllNonEmpty(imagePaths) && InBounds(imagePaths, c) && FilledFor(c)
      ensures var window := WalkWindow(c, rng, t0);
        && (r.Success? <==> window.Success?)
        && (r.Success? ==> r.value == window.value.0 && t == window.value.1)
    {
      WalkWindowParts(c, rng, t0);
      ghost var at := DocRef(c.inventory, c.document);
      ghost var back := PrevWalk(Present(GetPrevScansInDocument(c)), at, rng, t0);
      var prev, next;
      prev, t := GetPreviousIdcs(c, rng, t0);
      if prev.Failure? {
        return Failure(prev.error), t;
      }
      ghost var forward := NextWalk(Present(GetNextScansInDocument(c)), at, rng, back.value.1);
      next, t := GetNextIdcs(c, rng, t);
      if next.Failure? {
        return Failure(next.error), t;
      }
      assert prev.value + [Some(c)] + next.value
        == back.value.0[|back.value.0| - stepsBack..] + [Some(c)] + forward.value.0[..stepsForward];
      return Success(prev.value + [Some(c)] + next.value), t;
    }

    /** The first part of `__getitem__`: fill the shuffled halves of c's
        document, then walk round c. */
    method WindowAround(c: Coord, rng: Rng, t0: nat) returns (r: Result<seq<Option<Coord>>, SampleError>, t: nat)
      requires Valid() && AllNonEmpty(imagePaths) && InBounds(imagePaths, c)
      modifies this`nextScans, this`prevScans
      ensures Valid() && FilledFor(c) && ShuffledHalves(c, rng, t0)
      ensures var window := WalkWindow(c, rng, FillCursor(c, rng, t0));
        && (r.Success? <==> window.Success?)
        && (r.Success? ==> r.value == window.value.0 && t == window.value.1)
      ensures r.Success? ==>
        |r.value| == numberOfImages + 2 && r.value[stepsBack] == Some(c) && WalkSlots(c, r.value)
      ensures NoRandomWalk(rng) ==>
        r.Success? && FlatFrom(imagePaths, c.inventory, FlatIndex(imagePaths, c) - stepsBack, r.value)
    {
      t := FillNextPrevScans(c, rng, t0);
      assert t == FillCursor(c, rng, t0);
      WalkWindowKeeps(c, rng, t);
      r, t := WalkAround(c, rng, t);
    }

    /** Overwriting a slot other than the middle with a scan the insertion may
        draw keeps a window's properties. */
    lemma InsertKeepsWalk(c: Coord, w: seq<Option<Coord>>, position: nat, scan: Coord)
      requires WalkSlots(c, w) && position < |w|
      requires InBounds(imagePaths, scan) && (sampleSameInventory ==> scan.inventory == c.inventory)
      ensures WalkSlots(c, w[position := Some(scan)])
    {
    }

    /** In a window whose slots sit at their row-major positions, the targets
        of the present middle slots are the true document boundaries. */
    lemma NaturalTargets(c: Coord, base: int, w: seq<Option<Coord>>, targets: seq<Label>)
      requires InBounds(imagePaths, c) && |w| == numberOfImages + 2 && |targets| == numberOfImages
      requires FlatFrom(imagePaths, c.inventory, base, w)
      requires forall i :: 0 <= i < numberOfImages ==>
        targets[i] == BoundaryLabel(w[i], StaleDocument(w[1..i + 2], c.document), w[i + 2])
      ensures forall i :: 0 <= i < numberOfImages && w[i + 1].Some? ==> targets[i] == TrueLabel(imagePaths, w[i + 1].value)
    {
      forall i | 0 <= i < numberOfImages && w[i + 1].Some?
        ensures targets[i] == TrueLabel(imagePaths, w[i + 1].value)
      {
        assert w[1..i + 2][i] == w[i + 1];
        assert FlatSlot(imagePaths, c.inventory, base + i, w[i]);
        assert FlatSlot(imagePaths, c.inventory, base + i + 1, w[i + 1]);
        assert FlatSlot(imagePaths, c.inventory, base + i + 2, w[i + 2]);
        FlatNeighboursLabel(imagePaths, c.inventory, base + i + 1, w[i], w[i + 1].value, w[i + 2]);
      }
    }

    /** The second part of `__getitem__`: maybe overwrite one slot of the
        window around c with a random scan, then label the `numberOfImages`
        middle slots; the buffers are not touched. */
    method LabelWindow(c: Coord, w: seq<Option<Coord>>, rng: Rng, t0: nat) returns (r: Sample, t: nat)
      requires Valid() && InBounds(imagePaths, c)
      requires |w| == numberOfImages + 2 && w[stepsBack] == Some(c) && WalkSlots(c, w)
      ensures |r.window| == numberOfImages + 2 && r.window[stepsBack] == Some(c) && WalkSlots(c, r.window)
      ensures forall k :: 0 <= k < |w| && r.window[k] != w[k] ==> k != stepsBack
      ensures forall k, l :: 0 <= k < l < |w| && r.window[k] != w[k] ==> r.window[l] == w[l]
      ensures (r.targets.Some? <==> mode != Test) && (r.idcs.Some? <==> mode != Test)
      ensures mode != Test ==> r.idcs.value == r.window[1..numberOfImages + 1]
      ensures mode != Test ==>
        && |r.targets.value| == numberOfImages
        && forall i :: 0 <= i < numberOfImages ==>
             r.targets.value[i] == BoundaryLabel(r.window[i], StaleDocument(r.window[1..i + 2], c.document), r.window[i + 2])
      ensures var choice := RandomScanChoice(c, |w|, rng, t0);
        && t == choice.1
        && r.window == if choice.0.None? then w else w[choice.0.value.0 := Some(choice.0.value.1)]
      ensures rng.Valid() && probRandomScanInsert <= 0.0 ==> r.window == w
      ensures rng.Valid() && probRandomScanInsert <= 0.0 && FlatFrom(imagePaths, c.inventory, FlatIndex(imagePaths, c) - stepsBack, w) ==>
        mode != Test ==>
          forall i :: 0 <= i < numberOfImages && w[i + 1].Some? ==> r.targets.value[i] == TrueLabel(imagePaths, w[i + 1].value)
    {
      var a := new Option<Coord>[|w|](k requires 0 <= k < |w| => w[k]);
      assert a[..] == w;
      ghost var choice := RandomScanChoice(c, |w|, rng, t0);
      t := InsertRandomScan(a, rng, t0);
      var window := a[..];
      if choice.0.Some? {
        InsertKeepsWalk(c, w, choice.0.value.0, choice.0.value.1);
      }
      if mode == Test {
        return Sample(window, None, None), t;
      }
      var targets := ComputeTargets(window, numberOfImages, c.document);
      if rng.Valid() && probRandomScanInsert <= 0.0 && FlatFrom(imagePaths, c.inventory, FlatIndex(imagePaths, c) - stepsBack, w) {
        NaturalTargets(c, FlatIndex(imagePaths, c) - stepsBack, window, targets);
      }
      return Sample(window, Some(targets), Some(window[1..numberOfImages + 1])), t;
    }

    /** With no randomness in the walks, the window the walks of
        `__getitem__(idx)` build once the buffers are filled is the run of
        flat positions around idx, missing past the ends of the inventory. */
    lemma NaturalWindow(idx: nat, rng: Rng, t0: nat)
      requires Valid() && AllNonEmpty(imagePaths) && idx < len
      requires ShuffledHalves(idxToIdcs[idx], rng, t0) && NoRandomWalk(rng)
      ensures var centre := idxToIdcs[idx];
        var window := WalkWindow(centre, rng, FillCursor(centre, rng, t0));
        && window.Success?
        && FlatFrom(imagePaths, centre.inventory, idx - stepsBack, window.value.0)
    {
      var c := idxToIdcs[idx];
      assert FlatIndex(imagePaths, c) == idx;
      assert nextScans == [] && prevScans == [];
      WalkWindowKeeps(c, rng, FillCursor(c, rng, t0));
    }

    /** The window and targets of `__getitem__(idx)`: the window around the
        scan at flat index idx, maybe one slot overwritten with a random scan,
        then the labels of the `numberOfImages` middle slots. */
    method GetItem(idx: nat, rng: Rng, t0: nat) returns (r: Result<Sample, SampleError>, t: nat)
      requires Valid() && AllNonEmpty(imagePaths) && idx < len
      modifies this`nextScans, this`prevScans
      ensures Valid() && FilledFor(idxToIdcs[idx]) && ShuffledHalves(idxToIdcs[idx], rng, t0)
      ensures var centre := idxToIdcs[idx];
        var window := WalkWindow(centre, rng, FillCursor(centre, rng, t0));
        && (r.Success? <==> window.Success?)
        && (r.Success? ==>
              var choice := RandomScanChoice(centre, numberOfImages + 2, rng, window.value.1);
              && t == choice.1
              && r.value.window == if choice.0.None? then window.value.0
                                   else window.value.0[choice.0.value.0 := Some(choice.0.value.1)])
      ensures r.Success? ==>
        var centre := idxToIdcs[idx];
        var w := r.value.window;
        && |w| == numberOfImages + 2 && w[stepsBack] == Some(centre)
        && WalkSlots(centre, w)
        && (r.value.targets.Some? <==> mode != Test) && (r.value.idcs.Some? <==> mode != Test)
        && (mode != Test ==> r.value.idcs.value == w[1..numberOfImages + 1])
        && (mode != Test ==>
            && |r.value.targets.value| == numberOfImages
            && forall i :: 0 <= i < numberOfImages ==>
                 r.value.targets.value[i] == BoundaryLabel(w[i], StaleDocument(w[1..i + 2], centre.document), w[i + 2]))
      ensures NoRandomWalk(rng) && probRandomScanInsert <= 0.0 ==>
        var centre := idxToIdcs[idx];
        && r.Success?
        && r.value.window == WalkWindow(centre, rng, FillCursor(centre, rng, t0)).value.0
        && (mode != Test ==>
            forall i :: 0 <= i < numberOfImages && r.value.window[i + 1].Some? ==>
              r.value.targets.value[i] == TrueLabel(imagePaths, r.value.window[i + 1].value))
    {
      var c := idxToIdcs[idx];
      var w;
      w, t := WindowAround(c, rng, t0);
      if w.Failure? {
        return Failure(w.error), t;
      }
      assert IsIndex(imagePaths, idxToIdcs) && FlatIndex(imagePaths, c) == idx;
      var sample;
      sample, t := LabelWindow(c, w.value, rng, t);
      return Success(sample), t;
    }
  }
}
