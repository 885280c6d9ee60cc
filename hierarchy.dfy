/** The three-level hierarchy inventory -> document -> scan and its row-major
    flattening. The scan paths only matter to image and text loading, so the
    hierarchy is reduced to the number of scans of every document. */
module Hierarchy {
  import opened Wrappers

  /** h[i][j] is the number of scans of document j of inventory i. */
  type Shape = seq<seq<nat>>

  /** An (inventory, document, scan) triple; the source also asks about
      negative and too large indices, so the components are integers. */
  datatype Coord = Coord(inventory: int, document: int, scan: int)

  /** An (inventory, document) pair. */
  datatype DocRef = DocRef(inventory: int, document: int)

  predicate InBounds(h: Shape, c: Coord) {
    0 <= c.inventory < |h| && 0 <= c.document < |h[c.inventory]| && 0 <= c.scan < h[c.inventory][c.document]
  }

  predicate DocumentInBounds(h: Shape, d: DocRef) {
    0 <= d.inventory < |h| && 0 <= d.document < |h[d.inventory]|
  }

  predicate AllDocumentsNonEmpty(h: Shape) {
    forall i, j :: 0 <= i < |h| && 0 <= j < |h[i]| ==> h[i][j] > 0
  }

  /** Every inventory holds a document and every document a scan. */
  predicate AllNonEmpty(h: Shape) {
    AllDocumentsNonEmpty(h) && forall i :: 0 <= i < |h| ==> |h[i]| > 0
  }

  function Sum(s: seq<nat>): nat {
    if s == [] then 0 else Sum(s[..|s| - 1]) + s[|s| - 1]
  }

  /** Number of scans in the inventories before inventory i. */
  function ScansBeforeInventory(h: Shape, i: nat): nat
    requires i <= |h|
  {
    if i == 0 then 0 else ScansBeforeInventory(h, i - 1) + Sum(h[i - 1])
  }

  /** Total number of scans, the `total_scans` of the index build. */
  function TotalScans(h: Shape): nat {
    ScansBeforeInventory(h, |h|)
  }

  /** Number of scans before document j of inventory i, in row-major order. */
  function ScansBefore(h: Shape, i: nat, j: nat): nat
    requires i < |h| && j <= |h[i]|
  {
    ScansBeforeInventory(h, i) + Sum(h[i][..j])
  }

  /** Row-major position of a scan: the flat index the index build gives it. */
  function FlatIndex(h: Shape, c: Coord): nat
    requires InBounds(h, c)
  {
    ScansBefore(h, c.inventory, c.document) + c.scan
  }

  /** Lexicographic (row-major) order on coordinates. */
  predicate Precedes(a: Coord, b: Coord) {
    a.inventory < b.inventory
    || (a.inventory == b.inventory
        && (a.document < b.document || (a.document == b.document && a.scan < b.scan)))
  }

  lemma SumStep(s: seq<nat>, j: nat)
    requires j < |s|
    ensures Sum(s[..j + 1]) == Sum(s[..j]) + s[j]
  {
    assert s[..j + 1][..j] == s[..j];
  }

  lemma {:induction false} SumMono(s: seq<nat>, a: nat, b: nat)
    requires a <= b <= |s|
    ensures Sum(s[..a]) <= Sum(s[..b])
    decreases b - a
  {
    if a < b {
      SumStep(s, b - 1);
      SumMono(s, a, b - 1);
    }
  }

  lemma ScansBeforeEnds(h: Shape, i: nat)
    requires i < |h|
    ensures ScansBefore(h, i, 0) == ScansBeforeInventory(h, i)
    ensures ScansBefore(h, i, |h[i]|) == ScansBeforeInventory(h, i + 1)
  {
    assert h[i][..0] == [];
    assert h[i][..|h[i]|] == h[i];
  }

  lemma ScansBeforeStep(h: Shape, i: nat, j: nat)
    requires i < |h| && j < |h[i]|
    ensures ScansBefore(h, i, j + 1) == ScansBefore(h, i, j) + h[i][j]
  {
    SumStep(h[i], j);
  }

  lemma ScansBeforeMono(h: Shape, i: nat, a: nat, b: nat)
    requires i < |h| && a <= b <= |h[i]|
    ensures ScansBefore(h, i, a) <= ScansBefore(h, i, b)
  {
    SumMono(h[i], a, b);
  }

  lemma {:induction false} InventoryMono(h: Shape, a: nat, b: nat)
    requires a <= b <= |h|
    ensures ScansBeforeInventory(h, a) <= ScansBeforeInventory(h, b)
    decreases b - a
  {
    if a < b {
      InventoryMono(h, a, b - 1);
    }
  }

  /** A scan's flat index lies inside its document's block of indices, which
      lies inside its inventory's block, which lies below the total. */
  lemma FlatIndexBounds(h: Shape, c: Coord)
    requires InBounds(h, c)
    ensures ScansBefore(h, c.inventory, c.document) <= FlatIndex(h, c) < ScansBefore(h, c.inventory, c.document + 1)
    ensures ScansBeforeInventory(h, c.inventory) <= FlatIndex(h, c) < ScansBeforeInventory(h, c.inventory + 1)
    ensures ScansBeforeInventory(h, c.inventory + 1) <= TotalScans(h)
  {
    var i, j := c.inventory, c.document;
    ScansBeforeStep(h, i, j);
    ScansBeforeMono(h, i, 0, j);
    ScansBeforeMono(h, i, j + 1, |h[i]|);
    ScansBeforeEnds(h, i);
    InventoryMono(h, i + 1, |h|);
  }

  /** Flattening is row-major: it preserves and reflects the lexicographic
      order of coordinates, so distinct scans get distinct flat indices. */
  lemma FlatIndexOrder(h: Shape, a: Coord, b: Coord)
    requires InBounds(h, a) && InBounds(h, b)
    ensures Precedes(a, b) <==> FlatIndex(h, a) < FlatIndex(h, b)
    ensures FlatIndex(h, a) == FlatIndex(h, b) ==> a == b
  {
    PrecedesFlat(h, a, b);
    PrecedesFlat(h, b, a);
  }

  lemma PrecedesFlat(h: Shape, a: Coord, b: Coord)
    requires InBounds(h, a) && InBounds(h, b)
    ensures Precedes(a, b) ==> FlatIndex(h, a) < FlatIndex(h, b)
  {
    FlatIndexBounds(h, a);
    FlatIndexBounds(h, b);
    if a.inventory < b.inventory {
      InventoryMono(h, a.inventory + 1, b.inventory);
    } else if a.inventory == b.inventory && a.document < b.document {
      ScansBeforeMono(h, a.inventory, a.document + 1, b.document);
    }
  }

  /** The window slot expected at flat position n of a walk that stays in
      inventory i: the scan with that flat index when it belongs to inventory i,
      the missing sentinel otherwise. */
  ghost predicate FlatSlot(h: Shape, i: int, n: int, slot: Option<Coord>)
    requires 0 <= i < |h|
  {
    if ScansBeforeInventory(h, i) <= n < ScansBeforeInventory(h, i + 1) then
      slot.Some? && InBounds(h, slot.value) && slot.value.inventory == i && FlatIndex(h, slot.value) == n
    else
      slot.None?
  }

  /** Every slot of `slots` is the slot expected at its flat position, the
      first one at position `base`. */
  ghost predicate FlatFrom(h: Shape, i: int, base: int, slots: seq<Option<Coord>>)
    requires 0 <= i < |h|
  {
    forall k :: 0 <= k < |slots| ==> FlatSlot(h, i, base + k, slots[k])
  }

  lemma FlatFromAppend(h: Shape, i: int, base: int, a: seq<Option<Coord>>, b: seq<Option<Coord>>)
    requires 0 <= i < |h|
    requires FlatFrom(h, i, base, a) && FlatFrom(h, i, base + |a|, b)
    ensures FlatFrom(h, i, base, a + b)
  {
    forall k | 0 <= k < |a + b| ensures FlatSlot(h, i, base + k, (a + b)[k]) {
      if k >= |a| {
        assert (a + b)[k] == b[k - |a|];
        assert FlatSlot(h, i, base + |a| + (k - |a|), b[k - |a|]);
      }
    }
  }

  lemma FlatFromSlice(h: Shape, i: int, base: int, a: seq<Option<Coord>>, lo: nat, hi: nat)
    requires 0 <= i < |h|
    requires FlatFrom(h, i, base, a) && lo <= hi <= |a|
    ensures FlatFrom(h, i, base + lo, a[lo..hi])
  {
    forall k | 0 <= k < hi - lo ensures FlatSlot(h, i, base + lo + k, a[lo..hi][k]) {
      assert a[lo..hi][k] == a[lo + k];
    }
  }

  /** Slots whose positions all lie outside inventory i are all missing. */
  lemma FlatFromOutside(h: Shape, i: int, base: int, slots: seq<Option<Coord>>)
    requires 0 <= i < |h| && FlatFrom(h, i, base, slots)
    requires base + |slots| <= ScansBeforeInventory(h, i) || base >= ScansBeforeInventory(h, i + 1)
    ensures forall k :: 0 <= k < |slots| ==> slots[k].None?
  {
    forall k | 0 <= k < |slots| ensures slots[k].None? {
      assert FlatSlot(h, i, base + k, slots[k]);
    }
  }
}
