/** Declared dimensions of HEIC images (internal/convert/dimensions.go): the nested box walks,
    against the box grammar of ISO/IEC 14496-12 section 4.2. */
module Isobmff {
  import opened Wrappers
  import opened Bytes

  type Size = (nat, nat)

  // box types, as the big-endian value of their four characters
  const META := 0x6D657461
  const IPRP := 0x69707270
  const IPCO := 0x6970636F
  const ISPE := 0x69737065

  /** A box found in a buffer: its type, and where its payload lies. */
  datatype Box = Box(kind: nat, lo: nat, hi: nat)

  /** The box at `i` of a region that ends at `hi`. A size of 1 announces a 64-bit size; a size
      of 0, one below the header's length or one past the region ends the walk. */
  function BoxAt(b: seq<byte>, i: nat, hi: nat): (r: Option<Box>)
    requires hi <= |b|
    ensures r.Some? ==> i + 8 <= r.value.lo <= r.value.hi <= hi
  {
    if i + 8 > hi then None
    else
      var size := Big(b, i, i + 4);
      var kind := Big(b, i + 4, i + 8);
      if size != 1 then
        if size < 8 || i + size > hi then None else Some(Box(kind, i + 8, i + size))
      else if i + 16 > hi then None
      else
        var size64 := Big(b, i + 8, i + 16);
        if size64 < 16 || i + size64 > hi then None else Some(Box(kind, i + 16, i + size64))
  }

  /** The boxes walkBoxes visits from `i` if it is not stopped. */
  function Boxes(b: seq<byte>, i: nat, hi: nat): seq<Box>
    requires hi <= |b|
    decreases |b| - i
  {
    match BoxAt(b, i, hi)
    case None => []
    case Some(box) => [box] + Boxes(b, box.hi, hi)
  }

  /** The first box of a type, with at least `min` payload bytes. */
  function Find(b: seq<byte>, i: nat, hi: nat, kind: nat, min: nat): (r: Option<Box>)
    requires hi <= |b|
    ensures r.Some? ==> i + 8 <= r.value.lo && r.value.lo + min <= r.value.hi <= hi
    decreases |b| - i
  {
    match BoxAt(b, i, hi)
    case None => None
    case Some(box) =>
      if box.kind == kind && box.lo + min <= box.hi then Some(box) else Find(b, box.hi, hi, kind, min)
  }

  /** The property container: first ipco of the first iprp of the first meta. */
  function Properties(b: seq<byte>): (r: Option<Box>)
    ensures r.Some? ==> r.value.lo <= r.value.hi <= |b|
  {
    match Find(b, 0, |b|, META, 4)
    case None => None
    case Some(meta) =>
      InMeta(b, meta.lo + 4, meta.hi)
  }

  function InMeta(b: seq<byte>, lo: nat, hi: nat): (r: Option<Box>)
    requires hi <= |b|
    ensures r.Some? ==> r.value.lo <= r.value.hi <= |b|
  {
    match Find(b, lo, hi, IPRP, 0)
    case None => None
    case Some(iprp) => Find(b, iprp.lo, iprp.hi, IPCO, 0)
  }

  function Area(s: Size): nat { s.0 * s.1 }

  predicate Extent(box: Box) { box.kind == ISPE && box.lo + 12 <= box.hi }

  function SizeOf(b: seq<byte>, box: Box): Size
    requires box.lo + 12 <= box.hi <= |b|
  {
    (Big(b, box.lo + 4, box.lo + 8), Big(b, box.lo + 8, box.lo + 12))
  }

  function OwnSize(b: seq<byte>, box: Box): seq<Size>
    requires box.lo <= box.hi <= |b|
  {
    if Extent(box) then [SizeOf(b, box)] else []
  }

  /** Sizes of the well-sized ispe boxes from `i`, in order. */
  function Sizes(b: seq<byte>, i: nat, hi: nat): seq<Size>
    requires hi <= |b|
    decreases |b| - i
  {
    match BoxAt(b, i, hi)
    case None => []
    case Some(box) => OwnSize(b, box) + Sizes(b, box.hi, hi)
  }

  /** The running maximum over `sizes`. */
  function Largest(most: Size, sizes: seq<Size>): Size
    decreases |sizes|
  {
    if sizes == [] then most
    else Largest(if Area(sizes[0]) > Area(most) then sizes[0] else most, sizes[1..])
  }

  function LargestOf(sizes: seq<Size>): Option<Size> { if sizes == [] then None else Some(Largest((0, 0), sizes)) }

  /** heicDimensions. */
  function Dimensions(b: seq<byte>): Option<Size> {
    match Properties(b)
    case None => None
    case Some(ipco) =>
      LargestOf(Sizes(b, ipco.lo, ipco.hi))
  }

  // ----- the walks as loops -----

  /** One step of walkBoxes. */
  method NextBox(b: seq<byte>, i: nat, hi: nat) returns (r: Option<Box>)
    requires i + 8 <= hi <= |b|
    ensures r == BoxAt(b, i, hi)
  {
    var size := Big(b, i, i + 4);
    var headerLen := 8;
    if size == 1 {
      if i + 16 > hi {
        return None;
      }
      size := Big(b, i + 8, i + 16);
      headerLen := 16;
    } else if size == 0 {
      return None;
    }
    if size < headerLen || i + size > hi {
      return None;
    }
    return Some(Box(Big(b, i + 4, i + 8), i + headerLen, i + size));
  }

  /** A walk whose callback stops at the first box it looks for. */
  method FindBox(b: seq<byte>, lo: nat, hi: nat, kind: nat, min: nat) returns (r: Option<Box>)
    requires hi <= |b|
    ensures r == Find(b, lo, hi, kind, min)
  {
    var i := lo;
    while i + 8 <= hi
      invariant lo <= i
      invariant Find(b, lo, hi, kind, min) == Find(b, i, hi, kind, min)
      decreases |b| - i
    {
      var box := NextBox(b, i, hi);
      if box.None? {
        return None;
      }
      if box.value.kind == kind && box.value.lo + min <= box.value.hi {
        return box;
      }
      i := box.value.hi;
    }
    return None;
  }

  lemma SizesEnd(b: seq<byte>, i: nat, hi: nat)
    requires hi <= |b| && BoxAt(b, i, hi).None?
    ensures Sizes(b, i, hi) == []
  {
  }

  /** Products of two 32-bit sizes fit in 64 bits. */
  predicate Fits(s: Size) { s.0 < 0x1_0000_0000 && s.1 < 0x1_0000_0000 }

  lemma AreaFits(s: Size)
    requires Fits(s)
    ensures Area(s) < 0x1_0000_0000_0000_0000
  {
    MulBelow(s.0, s.1, 0x1_0000_0000);
  }

  lemma SizeFits(b: seq<byte>, box: Box)
    requires box.lo + 12 <= box.hi <= |b|
    ensures Fits(SizeOf(b, box))
  {
    FoldBelow(0, 1, b, box.lo + 4, box.lo + 8);
    FoldBelow(0, 1, b, box.lo + 8, box.lo + 12);
    assert Pow256(4) == 0x1_0000_0000;
  }

  lemma ExtentStep(b: seq<byte>, i: nat, hi: nat, box: Box, most: Size)
    requires hi <= |b| && BoxAt(b, i, hi) == Some(box) && Fits(most)
    ensures box.hi <= hi && Extent(box) ==> Fits(SizeOf(b, box)) && Sizes(b, i, hi) != []
    ensures !Extent(box) ==> Sizes(b, i, hi) == Sizes(b, box.hi, hi)
    ensures var best := if Extent(box) && Area(SizeOf(b, box)) > Area(most) then SizeOf(b, box) else most;
            Largest(most, Sizes(b, i, hi)) == Largest(best, Sizes(b, box.hi, hi))
  {
    var tail := Sizes(b, box.hi, hi);
    if Extent(box) {
      SizeFits(b, box);
      assert ([SizeOf(b, box)] + tail)[1..] == tail;
    } else {
      assert [] + tail == tail;
    }
  }

  /** The innermost walk, with its running maximum. */
  method LargestExtent(b: seq<byte>, lo: nat, hi: nat) returns (found: bool, most: Size)
    requires hi <= |b|
    ensures found <==> Sizes(b, lo, hi) != []
    ensures most == Largest((0, 0), Sizes(b, lo, hi)) && Fits(most)
  {
    found, most := false, (0, 0);
    var i := lo;
    while i + 8 <= hi
      invariant lo <= i && Fits(most)
      invariant Sizes(b, lo, hi) != [] <==> found || Sizes(b, i, hi) != []
      invariant Largest((0, 0), Sizes(b, lo, hi)) == Largest(most, Sizes(b, i, hi))
      decreases |b| - i
    {
      var box := NextBox(b, i, hi);
      if box.None? {
        break;
      }
      ExtentStep(b, i, hi, box.value, most);
      if Extent(box.value) {
        if Area(SizeOf(b, box.value)) > Area(most) {
          most := SizeOf(b, box.value);
        }
        found := true;
      }
      i := box.value.hi;
    }
    SizesEnd(b, i, hi);
  }

  method ReadDimensions(b: seq<byte>) returns (r: Option<Size>)
    ensures r == Dimensions(b)
  {
    var meta := FindBox(b, 0, |b|, META, 4);
    if meta.None? {
      return None;
    }
    var iprp := FindBox(b, meta.value.lo + 4, meta.value.hi, IPRP, 0);
    if iprp.None? {
      return None;
    }
    var ipco := FindBox(b, iprp.value.lo, iprp.value.hi, IPCO, 0);
    if ipco.None? {
      return None;
    }
    var found, most := LargestExtent(b, ipco.value.lo, ipco.value.hi);
    return if found then Some(most) else None;
  }

  // ----- the answer bounds every extent -----

  lemma {:induction false} LargestIsLargest(most: Size, sizes: seq<Size>)
    ensures Largest(most, sizes) == most || Largest(most, sizes) in sizes
    ensures Area(Largest(most, sizes)) >= Area(most)
    ensures forall s <- sizes :: Area(s) <= Area(Largest(most, sizes))
    decreases |sizes|
  {
    if sizes != [] {
      LargestIsLargest(if Area(sizes[0]) > Area(most) then sizes[0] else most, sizes[1..]);
      forall s | s in sizes ensures Area(s) <= Area(Largest(most, sizes)) {
        assert s == sizes[0] || s in sizes[1..];
      }
    }
  }

  lemma {:induction false} SizesOfBoxes(b: seq<byte>, i: nat, hi: nat, box: Box)
    requires hi <= |b| && box in Boxes(b, i, hi) && Extent(box)
    ensures box.hi <= |b| && SizeOf(b, box) in Sizes(b, i, hi)
    decreases |b| - i
  {
    var first := BoxAt(b, i, hi).value;
    if box != first {
      SizesOfBoxes(b, first.hi, hi, box);
    }
  }

  lemma {:induction false} BoxOfSize(b: seq<byte>, i: nat, hi: nat, s: Size) returns (box: Box)
    requires hi <= |b| && s in Sizes(b, i, hi)
    ensures box in Boxes(b, i, hi) && Extent(box) && box.hi <= |b| && SizeOf(b, box) == s
    decreases |b| - i
  {
    var first := BoxAt(b, i, hi).value;
    if Extent(first) && s == SizeOf(b, first) {
      box := first;
    } else {
      box := BoxOfSize(b, first.hi, hi, s);
    }
  }

  /** The answer is never smaller than any well-sized ispe box of the walked ipco, and it is the
      size of one of them unless all of them are empty. */
  lemma AnswerIsLargest(b: seq<byte>)
    requires Dimensions(b).Some?
    ensures var ipco := Properties(b).value;
            var boxes := Boxes(b, ipco.lo, ipco.hi);
            var answer := Dimensions(b).value;
            && (forall box <- boxes :: Extent(box) ==> box.hi <= |b| && Area(SizeOf(b, box)) <= Area(answer))
            && (Area(answer) > 0 ==> exists box <- boxes :: Extent(box) && box.hi <= |b| && SizeOf(b, box) == answer)
            && (Area(answer) == 0 ==> answer == (0, 0))
            && Fits(answer)
  {
    var ipco := Properties(b).value;
    var boxes := Boxes(b, ipco.lo, ipco.hi);
    var sizes := Sizes(b, ipco.lo, ipco.hi);
    var answer := Dimensions(b).value;
    LargestIsLargest((0, 0), sizes);
    forall box <- boxes | Extent(box) ensures box.hi <= |b| && Area(SizeOf(b, box)) <= Area(answer) {
      SizesOfBoxes(b, ipco.lo, ipco.hi, box);
    }
    if answer in sizes {
      var box := BoxOfSize(b, ipco.lo, ipco.hi, answer);
      SizeFits(b, box);
    }
    LargestNonEmpty((0, 0), sizes);
  }

  lemma {:induction false} LargestNonEmpty(most: Size, sizes: seq<Size>)
    ensures Largest(most, sizes) == most || Area(Largest(most, sizes)) > Area(most)
    decreases |sizes|
  {
    if sizes != [] {
      LargestNonEmpty(if Area(sizes[0]) > Area(most) then sizes[0] else most, sizes[1..]);
    }
  }

  lemma DimensionsFit(b: seq<byte>)
    requires Dimensions(b).Some?
    ensures Fits(Dimensions(b).value)
  {
    AnswerIsLargest(b);
  }

  /** There is an answer exactly when the walked ipco holds a well-sized ispe box. */
  lemma AnswersIffExtent(b: seq<byte>)
    ensures Dimensions(b).Some? <==>
              && Properties(b).Some?
              && exists box <- Boxes(b, Properties(b).value.lo, Properties(b).value.hi) :: Extent(box)
  {
    if Properties(b).Some? {
      var ipco := Properties(b).value;
      var sizes := Sizes(b, ipco.lo, ipco.hi);
      forall box <- Boxes(b, ipco.lo, ipco.hi) | Extent(box) ensures sizes != [] {
        SizesOfBoxes(b, ipco.lo, ipco.hi, box);
      }
      if sizes != [] {
        var box := BoxOfSize(b, ipco.lo, ipco.hi, sizes[0]);
      }
    }
  }

  // ----- a found size stays found -----

  lemma BoxStable(b: seq<byte>, more: seq<byte>, i: nat, hi: nat)
    requires hi <= |b|
    ensures BoxAt(b + more, i, hi) == BoxAt(b, i, hi)
  {
    if i + 8 <= hi {
      FoldPrefix(0, b, more, i, i + 4);
      FoldPrefix(0, b, more, i + 4, i + 8);
      if i + 16 <= hi {
        FoldPrefix(0, b, more, i + 8, i + 16);
      }
    }
  }

  /** A box that is complete in a region stays so in a longer region. */
  lemma BoxGrows(b: seq<byte>, i: nat, hi: nat, hi': nat)
    requires hi <= hi' <= |b| && BoxAt(b, i, hi).Some?
    ensures BoxAt(b, i, hi') == BoxAt(b, i, hi)
  {
  }

  lemma {:induction false} FindStable(b: seq<byte>, more: seq<byte>, i: nat, hi: nat, hi': nat, kind: nat, min: nat)
    requires hi <= |b| && hi <= hi' <= |b + more| && Find(b, i, hi, kind, min).Some?
    ensures Find(b + more, i, hi', kind, min) == Find(b, i, hi, kind, min)
    decreases |b| - i
  {
    BoxStable(b, more, i, hi);
    BoxGrows(b + more, i, hi, hi');
    var box := BoxAt(b, i, hi).value;
    if !(box.kind == kind && box.lo + min <= box.hi) {
      FindStable(b, more, box.hi, hi, hi', kind, min);
    }
  }

  lemma OwnSizeStable(b: seq<byte>, more: seq<byte>, box: Box)
    requires box.lo <= box.hi <= |b|
    ensures OwnSize(b + more, box) == OwnSize(b, box)
  {
    if Extent(box) {
      FoldPrefix(0, b, more, box.lo + 4, box.lo + 8);
      FoldPrefix(0, b, more, box.lo + 8, box.lo + 12);
    }
  }

  lemma SizesStep(b: seq<byte>, i: nat, hi: nat, box: Box)
    requires hi <= |b| && BoxAt(b, i, hi) == Some(box)
    ensures box.lo <= box.hi <= hi && Sizes(b, i, hi) == OwnSize(b, box) + Sizes(b, box.hi, hi)
  {
  }

  lemma {:induction false} SizesStable(b: seq<byte>, more: seq<byte>, i: nat, hi: nat)
    requires hi <= |b|
    ensures Sizes(b + more, i, hi) == Sizes(b, i, hi)
    decreases |b| - i
  {
    BoxStable(b, more, i, hi);
    var box := BoxAt(b, i, hi);
    if box.Some? {
      OwnSizeStable(b, more, box.value);
      SizesStable(b, more, box.value.hi, hi);
      SizesStep(b, i, hi, box.value);
      SizesStep(b + more, i, hi, box.value);
    } else {
      SizesEnd(b, i, hi);
      SizesEnd(b + more, i, hi);
    }
  }

  /** Bounded peek refines the unbounded parser: the boxes on the way to the property container
      are complete in the prefix. */
  lemma DimensionsStable(b: seq<byte>, more: seq<byte>)
    requires Dimensions(b).Some?
    ensures Dimensions(b + more) == Dimensions(b)
  {
    var meta := Find(b, 0, |b|, META, 4).value;
    FindStable(b, more, 0, |b|, |b + more|, META, 4);
    var iprp := Find(b, meta.lo + 4, meta.hi, IPRP, 0).value;
    FindStable(b, more, meta.lo + 4, meta.hi, meta.hi, IPRP, 0);
    var ipco := Find(b, iprp.lo, iprp.hi, IPCO, 0).value;
    FindStable(b, more, iprp.lo, iprp.hi, iprp.hi, IPCO, 0);
    SizesStable(b, more, ipco.lo, ipco.hi);
  }

  // ----- reading what was written -----

  /** A box as written: a header, with a 32-bit or a 64-bit size, and a payload. */
  datatype Node = Node(head: seq<byte>, payload: seq<byte>) {
    predicate Legal() {
      || (|head| == 8 && Big(head, 0, 4) == |payload| + 8)
      || (|head| == 16 && Big(head, 0, 4) == 1 && Big(head, 8, 16) == |payload| + 16)
    }
    function Kind(): nat { if |head| >= 8 then Big(head, 4, 8) else 0 }
    function Written(): seq<byte> { head + payload }
    /** The size that an ispe box of at least twelve bytes holds. */
    function Size(): seq<Size> {
      if Kind() == Code(0x69, 0x73, 0x70, 0x65) && |payload| >= 12
          then [(Big(payload, 4, 8), Big(payload, 8, 12))] else []
    }

    /** The box this node is when written at `i`. */
    function Placed(i: nat): Box { Box(Kind(), i + |head|, i + |Written()|) }
  }

  lemma HeadReads(size: seq<byte>, kind: seq<byte>, size64: seq<byte>)
    requires |size| == |kind| == 4
    ensures var head := size + kind + size64;
            && Big(head, 0, 4) == Big(size, 0, 4) && Big(head, 4, 8) == Big(kind, 0, 4)
            && Big(head, 8, |head|) == Big(size64, 0, |size64|)
  {
    var head := size + kind + size64;
    FoldSits(0, head, 0, size, 0, 4);
    FoldSits(0, head, 4, kind, 0, 4);
    FoldSits(0, head, 8, size64, 0, |size64|);
  }

  /** Every type and payload can be written, with either size where it fits. */
  lemma NodeEncodes(kind: nat, payload: seq<byte>, wide: bool) returns (n: Node)
    requires kind < Pow256(4) && if wide then |payload| + 16 < Pow256(8) else |payload| + 8 < Pow256(4)
    ensures n.Legal() && n.Kind() == kind && n.payload == payload && |n.head| == if wide then 16 else 8
  {
    var size := if wide then 1 else |payload| + 8;
    var size64 := if wide then WriteBig(|payload| + 16, 8) else [];
    assert size < Pow256(4) by { assert Pow256(4) >= 256; }
    n := Node(WriteBig(size, 4) + WriteBig(kind, 4) + size64, payload);
    HeadReads(WriteBig(size, 4), WriteBig(kind, 4), size64);
    WriteBigReads(size, 4);
    WriteBigReads(kind, 4);
    if wide {
      WriteBigReads(|payload| + 16, 8);
    }
  }

  function Write(nodes: seq<Node>): seq<byte> {
    if nodes == [] then [] else nodes[0].Written() + Write(nodes[1..])
  }

  lemma NodeReads(b: seq<byte>, i: nat, hi: nat, n: Node)
    requires n.Legal() && Sits(b, i, n.Written()) && i + |n.Written()| <= hi <= |b|
    ensures BoxAt(b, i, hi) == Some(n.Placed(i)) && Sits(b, n.Placed(i).lo, n.payload)
  {
    SitsApart(b, i, n.head, n.payload);
    FoldSits(0, b, i, n.head, 0, 4);
    FoldSits(0, b, i, n.head, 4, 8);
    if |n.head| == 16 {
      FoldSits(0, b, i, n.head, 8, 16);
    }
  }

  predicate Wanted(n: Node, kind: nat, min: nat) { n.Kind() == kind && min <= |n.payload| }

  /** Legal boxes none of which is the wanted one. */
  predicate Others(nodes: seq<Node>, kind: nat, min: nat) {
    forall n <- nodes :: n.Legal() && !Wanted(n, kind, min)
  }

  lemma RestSits(b: seq<byte>, i: nat, nodes: seq<Node>)
    requires nodes != [] && Sits(b, i, Write(nodes))
    ensures var next := i + |nodes[0].Written()|;
            && Sits(b, i, nodes[0].Written()) && Sits(b, next, Write(nodes[1..]))
            && i + |Write(nodes)| == next + |Write(nodes[1..])|
  {
    SitsApart(b, i, nodes[0].Written(), Write(nodes[1..]));
  }

  lemma FindSkips(b: seq<byte>, i: nat, hi: nat, box: Box, kind: nat, min: nat)
    requires hi <= |b| && BoxAt(b, i, hi) == Some(box) && !(box.kind == kind && box.lo + min <= box.hi)
    ensures Find(b, i, hi, kind, min) == Find(b, box.hi, hi, kind, min)
  {
  }

  lemma NodeSkipped(b: seq<byte>, i: nat, hi: nat, n: Node, kind: nat, min: nat)
    requires n.Legal() && Sits(b, i, n.Written()) && n.Placed(i).hi <= hi <= |b| && !Wanted(n, kind, min)
    ensures Find(b, i, hi, kind, min) == Find(b, n.Placed(i).hi, hi, kind, min)
  {
    NodeReads(b, i, hi, n);
    FindSkips(b, i, hi, n.Placed(i), kind, min);
  }

  lemma FirstSkipped(b: seq<byte>, i: nat, end: nat, hi: nat, nodes: seq<Node>, kind: nat, min: nat) returns (next: nat)
    requires nodes != [] && Others(nodes, kind, min)
    requires Sits(b, i, Write(nodes)) && end == i + |Write(nodes)| && end <= hi <= |b|
    ensures Others(nodes[1..], kind, min) && Sits(b, next, Write(nodes[1..])) && end == next + |Write(nodes[1..])|
    ensures next <= |b| && Find(b, i, hi, kind, min) == Find(b, next, hi, kind, min)
  {
    RestSits(b, i, nodes);
    NodeSkipped(b, i, hi, nodes[0], kind, min);
    next := nodes[0].Placed(i).hi;
  }

  lemma {:induction false} FindReads(b: seq<byte>, i: nat, end: nat, hi: nat, before: seq<Node>, n: Node, min: nat)
    requires Others(before, n.Kind(), min) && n.Legal() && min <= |n.payload|
    requires Sits(b, i, Write(before)) && end == i + |Write(before)|
    requires Sits(b, end, n.Written()) && n.Placed(end).hi <= hi <= |b|
    ensures Find(b, i, hi, n.Kind(), min) == Some(n.Placed(end))
    decreases |before|
  {
    if before == [] {
      NodeReads(b, i, hi, n);
    } else {
      var next := FirstSkipped(b, i, end, hi, before, n.Kind(), min);
      FindReads(b, next, end, hi, before[1..], n, min);
    }
  }

  /** Sizes of the well-sized ispe nodes. */
  function Extents(nodes: seq<Node>): seq<Size> {
    if nodes == [] then []
    else nodes[0].Size() + Extents(nodes[1..])
  }

  lemma OwnSizeReads(b: seq<byte>, i: nat, n: Node)
    requires Sits(b, n.Placed(i).lo, n.payload) && n.Placed(i).hi <= |b|
    ensures OwnSize(b, n.Placed(i)) == n.Size()
  {
    var box := n.Placed(i);
    if Extent(box) {
      FoldSits(0, b, box.lo, n.payload, 4, 8);
      FoldSits(0, b, box.lo, n.payload, 8, 12);
    }
  }

  lemma FirstSize(b: seq<byte>, i: nat, hi: nat, n: Node)
    requires n.Legal() && Sits(b, i, n.Written()) && n.Placed(i).hi <= hi <= |b|
    ensures Sizes(b, i, hi) == n.Size() + Sizes(b, n.Placed(i).hi, hi)
  {
    NodeReads(b, i, hi, n);
    OwnSizeReads(b, i, n);
    SizesStep(b, i, hi, n.Placed(i));
  }

  predicate AllLegal(nodes: seq<Node>) { forall n <- nodes :: n.Legal() }

  lemma FirstExtent(b: seq<byte>, i: nat, end: nat, hi: nat, nodes: seq<Node>) returns (next: nat)
    requires nodes != [] && AllLegal(nodes) && Sits(b, i, Write(nodes)) && end == i + |Write(nodes)| && end <= hi <= |b|
    ensures AllLegal(nodes[1..]) && Sits(b, next, Write(nodes[1..])) && end == next + |Write(nodes[1..])|
    ensures Sizes(b, i, hi) == nodes[0].Size() + Sizes(b, next, hi)
  {
    RestSits(b, i, nodes);
    FirstSize(b, i, hi, nodes[0]);
    next := nodes[0].Placed(i).hi;
  }

  lemma {:induction false} ExtentsRead(b: seq<byte>, i: nat, end: nat, hi: nat, nodes: seq<Node>)
    requires AllLegal(nodes) && Sits(b, i, Write(nodes)) && end == i + |Write(nodes)| && end <= hi <= |b|
    requires BoxAt(b, end, hi).None?
    ensures Sizes(b, i, hi) == Extents(nodes)
    decreases |nodes|
  {
    if nodes == [] {
      SizesEnd(b, i, hi);
    } else {
      var next := FirstExtent(b, i, end, hi, nodes);
      ExtentsRead(b, next, end, hi, nodes[1..]);
    }
  }

  // ----- the hierarchy -----

  /** `t` fills [lo, hi) of `b`. */
  predicate Spans(b: seq<byte>, lo: nat, hi: nat, t: seq<byte>) { hi == lo + |t| && Sits(b, lo, t) }

  lemma SpansApart(b: seq<byte>, lo: nat, hi: nat, t: seq<byte>, u: seq<byte>, v: seq<byte>)
    requires v == t + u
    ensures Spans(b, lo, hi, v) <==> Spans(b, lo, lo + |t|, t) && Spans(b, lo + |t|, hi, u)
  {
    SitsApart(b, lo, t, u);
  }

  lemma SpansOne(b: seq<byte>, lo: nat, hi: nat, t: seq<byte>, u: seq<byte>)
    requires Spans(b, lo, hi, t) && Spans(b, lo, hi, u)
    ensures t == u
  {
    SitsIsSlice(b, lo, t);
    SitsIsSlice(b, lo, u);
  }

  /** One level of the hierarchy: other boxes, the box on the path, and anything after. */
  datatype Level = Level(before: seq<Node>, box: Node, rest: seq<byte>) {
    predicate Legal(kind: nat, min: nat) {
      box.Kind() == kind && box.Legal() && min <= |box.payload| && Others(before, kind, min)
    }
    function Written(): seq<byte> { Write(before) + box.Written() + rest }
  }

  /** The box found at one level is the one written there. */
  predicate Found(b: seq<byte>, lo: nat, hi: nat, kind: nat, min: nat, box: Box, payload: seq<byte>)
  {
    && lo <= hi <= |b| && Find(b, lo, hi, kind, min) == Some(box) && Spans(b, box.lo, box.hi, payload)
  }

  lemma LevelReads(b: seq<byte>, lo: nat, hi: nat, level: Level, kind: nat, min: nat) returns (box: Box)
    requires level.Legal(kind, min) && Spans(b, lo, hi, level.Written())
    ensures Found(b, lo, hi, kind, min, box, level.box.payload)
  {
    var before := Write(level.before);
    SitsApart(b, lo, before + level.box.Written(), level.rest);
    SitsApart(b, lo, before, level.box.Written());
    FindReads(b, lo, lo + |before|, hi, level.before, level.box, min);
    box := level.box.Placed(lo + |before|);
    NodeReads(b, lo + |before|, hi, level.box);
  }

  /** A tail after which no further box is read. */
  predicate Ends(tail: seq<byte>) { BoxAt(tail, 0, |tail|).None? }

  /** The path meta, iprp, ipco from the top level of a file down, the properties in it,
      and what follows them. */
  datatype Path = Path(top: Level, flags: seq<byte>, meta: Level, iprp: Level, properties: seq<Node>, tail: seq<byte>) {
    predicate Leads() {
      && top.Legal(Code(0x6D, 0x65, 0x74, 0x61), 4) && top.box.payload == flags + meta.Written() && |flags| == 4
      && meta.Legal(Code(0x69, 0x70, 0x72, 0x70), 0) && meta.box.payload == iprp.Written()
      && iprp.Legal(Code(0x69, 0x70, 0x63, 0x6F), 0)
    }
    predicate Holds() {
      iprp.box.payload == Write(properties) + tail && Ends(tail) && AllLegal(properties)
    }
    predicate Legal() { Leads() && Holds() }
    function Written(): seq<byte> { top.Written() }
  }

  lemma MetaReads(b: seq<byte>, lo: nat, hi: nat, meta: Level, iprp: Level) returns (box: Box)
    requires meta.Legal(IPRP, 0) && meta.box.payload == iprp.Written()
    requires iprp.Legal(IPCO, 0) && Spans(b, lo, hi, meta.Written())
    ensures InMeta(b, lo, hi) == Some(box) && Spans(b, box.lo, box.hi, iprp.box.payload)
  {
    var inner := LevelReads(b, lo, hi, meta, IPRP, 0);
    box := LevelReads(b, inner.lo, inner.hi, iprp, IPCO, 0);
  }

  lemma TopReads(b: seq<byte>, top: Level, flags: seq<byte>, inner: seq<byte>) returns (box: Box)
    requires top.Legal(META, 4) && top.box.payload == flags + inner && |flags| == 4 && Spans(b, 0, |b|, top.Written())
    ensures Find(b, 0, |b|, META, 4) == Some(box) && Spans(b, box.lo + 4, box.hi, inner)
  {
    box := LevelReads(b, 0, |b|, top, META, 4);
    SpansApart(b, box.lo, box.hi, flags, inner, top.box.payload);
  }

  lemma PathReads(b: seq<byte>, p: Path) returns (box: Box)
    requires p.Leads() && Spans(b, 0, |b|, p.top.Written())
    ensures Properties(b) == Some(box) && Spans(b, box.lo, box.hi, p.iprp.box.payload)
  {
    var outer := TopReads(b, p.top, p.flags, p.meta.Written());
    box := MetaReads(b, outer.lo + 4, outer.hi, p.meta, p.iprp);
  }

  /** What ends a walk ends it wherever it is written. */
  lemma BoxMoves(b: seq<byte>, lo: nat, hi: nat, t: seq<byte>)
    requires Spans(b, lo, hi, t)
    ensures BoxAt(b, lo, hi).None? <==> Ends(t)
  {
    if |t| >= 8 {
      FoldSits(0, b, lo, t, 0, 4);
      FoldSits(0, b, lo, t, 4, 8);
      if |t| >= 16 {
        FoldSits(0, b, lo, t, 8, 16);
      }
    }
  }

  lemma PropertiesRead(b: seq<byte>, lo: nat, hi: nat, payload: seq<byte>, properties: seq<Node>, tail: seq<byte>)
    requires Spans(b, lo, hi, payload) && payload == Write(properties) + tail
    requires Ends(tail) && AllLegal(properties)
    ensures Sizes(b, lo, hi) == Extents(properties)
  {
    SpansApart(b, lo, hi, Write(properties), tail, payload);
    BoxMoves(b, lo + |Write(properties)|, hi, tail);
    ExtentsRead(b, lo, lo + |Write(properties)|, hi, properties);
  }

  lemma FileReadsAt(b: seq<byte>, p: Path)
    requires p.Leads() && p.Holds() && Spans(b, 0, |b|, p.Written())
    ensures Dimensions(b) == LargestOf(Extents(p.properties))
  {
    var box := PathReads(b, p);
    PropertiesRead(b, box.lo, box.hi, p.iprp.box.payload, p.properties, p.tail);
  }

  /** Round trip: whatever boxes and bytes surround the path to the property container, and
      whatever size widths are used, the answer is the largest written extent. */
  lemma FileReads(p: Path)
    requires p.Legal()
    ensures Dimensions(p.Written()) == LargestOf(Extents(p.properties))
  {
    FileReadsAt(p.Written(), p);
  }

  // ----- every answer is such a file -----

  function NodeAt(b: seq<byte>, i: nat, box: Box): Node
    requires i <= box.lo <= box.hi <= |b|
  {
    Node(b[i..box.lo], b[box.lo..box.hi])
  }

  lemma NodeComesFrom(b: seq<byte>, i: nat, hi: nat)
    requires hi <= |b| && BoxAt(b, i, hi).Some?
    ensures var box := BoxAt(b, i, hi).value;
            var n := NodeAt(b, i, box);
            && n.Legal() && n.Placed(i) == box && Sits(b, i, n.Written()) && Sits(b, box.lo, n.payload)
  {
    var box := BoxAt(b, i, hi).value;
    var n := NodeAt(b, i, box);
    SitsApart(b, i, n.head, n.payload);
    FoldSits(0, b, i, n.head, 0, 4);
    FoldSits(0, b, i, n.head, 4, 8);
    if |n.head| == 16 {
      FoldSits(0, b, i, n.head, 8, 16);
    }
  }

  lemma PrependSits(b: seq<byte>, i: nat, n: Node, nodes: seq<Node>)
    requires Sits(b, i, n.Written()) && Sits(b, i + |n.Written()|, Write(nodes))
    ensures Sits(b, i, Write([n] + nodes)) && |Write([n] + nodes)| == |n.Written()| + |Write(nodes)|
  {
    assert ([n] + nodes)[1..] == nodes;
    SitsApart(b, i, n.Written(), Write(nodes));
  }

  lemma {:induction false} FindComesFrom(b: seq<byte>, i: nat, hi: nat, kind: nat, min: nat)
    returns (before: seq<Node>, at: nat)
    requires hi <= |b| && Find(b, i, hi, kind, min).Some?
    ensures Others(before, kind, min) && Sits(b, i, Write(before)) && at == i + |Write(before)|
    ensures BoxAt(b, at, hi) == Find(b, i, hi, kind, min) && Find(b, i, hi, kind, min).value.kind == kind
    decreases |b| - i
  {
    var box := BoxAt(b, i, hi).value;
    if box.kind == kind && box.lo + min <= box.hi {
      before, at := [], i;
    } else {
      NodeComesFrom(b, i, hi);
      FindSkips(b, i, hi, box, kind, min);
      var n := NodeAt(b, i, box);
      var tail;
      tail, at := FindComesFrom(b, box.hi, hi, kind, min);
      before := [n] + tail;
      PrependSits(b, i, n, tail);
    }
  }

  lemma LevelComesFrom(b: seq<byte>, lo: nat, hi: nat, kind: nat, min: nat) returns (level: Level)
    requires hi <= |b| && Find(b, lo, hi, kind, min).Some?
    ensures var box := Find(b, lo, hi, kind, min).value;
            level.Legal(kind, min) && Spans(b, lo, hi, level.Written()) && Spans(b, box.lo, box.hi, level.box.payload)
  {
    var box := Find(b, lo, hi, kind, min).value;
    var before, at := FindComesFrom(b, lo, hi, kind, min);
    NodeComesFrom(b, at, hi);
    var n, rest := NodeAt(b, at, box), b[box.hi..hi];
    level := Level(before, n, rest);
    assert Sits(b, box.hi, rest);
    SitsApart(b, lo, Write(before), n.Written());
    SitsApart(b, lo, Write(before) + n.Written(), rest);
  }

  lemma {:induction false} BoxesComeFrom(b: seq<byte>, i: nat, hi: nat) returns (nodes: seq<Node>, end: nat)
    requires i <= hi <= |b|
    ensures AllLegal(nodes) && Sits(b, i, Write(nodes)) && end == i + |Write(nodes)| <= hi
    ensures BoxAt(b, end, hi).None?
    decreases |b| - i
  {
    if BoxAt(b, i, hi).None? {
      nodes, end := [], i;
    } else {
      NodeComesFrom(b, i, hi);
      var box := BoxAt(b, i, hi).value;
      var n, more := NodeAt(b, i, box), [];
      more, end := BoxesComeFrom(b, box.hi, hi);
      nodes := [n] + more;
      PrependSits(b, i, n, more);
    }
  }

  lemma PropertiesComeFrom(b: seq<byte>, lo: nat, hi: nat, payload: seq<byte>)
    returns (properties: seq<Node>, tail: seq<byte>)
    requires Spans(b, lo, hi, payload)
    ensures payload == Write(properties) + tail && Ends(tail) && AllLegal(properties)
  {
    var end;
    properties, end := BoxesComeFrom(b, lo, hi);
    tail := b[end..hi];
    assert Spans(b, end, hi, tail);
    BoxMoves(b, end, hi, tail);
    SpansApart(b, lo, hi, Write(properties), tail, Write(properties) + tail);
    SpansOne(b, lo, hi, payload, Write(properties) + tail);
  }

  lemma MetaComesFrom(b: seq<byte>, lo: nat, hi: nat) returns (meta: Level, iprp: Level)
    requires hi <= |b| && InMeta(b, lo, hi).Some?
    ensures meta.Legal(IPRP, 0) && meta.box.payload == iprp.Written()
    ensures iprp.Legal(IPCO, 0) && Spans(b, lo, hi, meta.Written())
    ensures var box := InMeta(b, lo, hi).value; Spans(b, box.lo, box.hi, iprp.box.payload)
  {
    meta := LevelComesFrom(b, lo, hi, IPRP, 0);
    var inner := Find(b, lo, hi, IPRP, 0).value;
    iprp := LevelComesFrom(b, inner.lo, inner.hi, IPCO, 0);
    SpansOne(b, inner.lo, inner.hi, meta.box.payload, iprp.Written());
  }

  lemma TopComesFrom(b: seq<byte>, inner: seq<byte>) returns (top: Level, flags: seq<byte>)
    requires Find(b, 0, |b|, META, 4).Some?
    requires var box := Find(b, 0, |b|, META, 4).value; Spans(b, box.lo + 4, box.hi, inner)
    ensures top.Legal(META, 4) && top.box.payload == flags + inner && |flags| == 4 && Spans(b, 0, |b|, top.Written())
  {
    var box := Find(b, 0, |b|, META, 4).value;
    top := LevelComesFrom(b, 0, |b|, META, 4);
    flags := b[box.lo..box.lo + 4];
    assert Spans(b, box.lo, box.lo + 4, flags);
    SpansApart(b, box.lo, box.hi, flags, inner, flags + inner);
    SpansOne(b, box.lo, box.hi, top.box.payload, flags + inner);
  }

  lemma PathComesFrom(b: seq<byte>) returns (p: Path)
    requires Properties(b).Some?
    ensures p.Legal() && Spans(b, 0, |b|, p.Written())
  {
    var outer := Find(b, 0, |b|, META, 4).value;
    var meta, iprp := MetaComesFrom(b, outer.lo + 4, outer.hi);
    var top, flags := TopComesFrom(b, meta.Written());
    var box := Properties(b).value;
    var properties, tail := PropertiesComeFrom(b, box.lo, box.hi, iprp.box.payload);
    p := Path(top, flags, meta, iprp, properties, tail);
  }

  lemma AnswerComesFrom(b: seq<byte>) returns (p: Path)
    requires Properties(b).Some?
    ensures p.Legal() && p.Written() == b && Dimensions(b) == LargestOf(Extents(p.properties))
  {
    p := PathComesFrom(b);
    FileReadsAt(b, p);
    SpansOne(b, 0, |b|, b, p.Written());
  }

  /** Exactness: a size is answered if and only if the bytes are such a file and the size is the
      largest extent written in it. */
  lemma AnsweredIffWritten(b: seq<byte>, size: Size)
    ensures Dimensions(b) == Some(size) <==>
              exists p: Path :: p.Legal() && p.Written() == b && LargestOf(Extents(p.properties)) == Some(size)
  {
    if Dimensions(b) == Some(size) {
      var p := AnswerComesFrom(b);
    }
    forall p: Path | p.Legal() && p.Written() == b ensures Dimensions(b) == LargestOf(Extents(p.properties)) {
      FileReads(p);
    }
  }
}
