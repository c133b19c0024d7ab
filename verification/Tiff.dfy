/** Declared dimensions of TIFF images (internal/convert/dimensions.go), from the first image
    file directory of TIFF 6.0 section 2. */
module Tiff {
  import opened Wrappers
  import opened Bytes

  type Size = (nat, nat)

  datatype Order = LittleEndian | BigEndian

  function Read(o: Order, b: seq<byte>, lo: nat, hi: nat): nat
    requires lo <= hi <= |b|
  {
    if o.LittleEndian? then Little(b, lo, hi) else Big(b, lo, hi)
  }

  function OrderOf(b: seq<byte>): Option<Order>
    requires |b| >= 2
  {
    if b[0] == 0x49 && b[1] == 0x49 then Some(LittleEndian)
    else if b[0] == 0x4D && b[1] == 0x4D then Some(BigEndian)
    else None
  }

  /** What a directory entry says: a width, a height, or nothing the scan uses. */
  datatype Field = Width(v: nat) | Height(v: nat) | Other

  function FieldAt(o: Order, b: seq<byte>, off: nat): Field
    requires off + 12 <= |b|
  {
    var tag := Read(o, b, off, off + 2);
    var kind := Read(o, b, off + 2, off + 4);
    if (tag != 256 && tag != 257) || (kind != 3 && kind != 4) then Other
    else
      var v := if kind == 3 then Read(o, b, off + 8, off + 10) else Read(o, b, off + 8, off + 12);
      if tag == 256 then Width(v) else Height(v)
  }

  /** The directory of a file: byte order, offset of the first entry, number of entries. */
  datatype Directory = Directory(order: Order, start: nat, count: nat) {
    /** Offset of entry `i`, in 32-bit arithmetic. */
    function Offset(i: nat): nat { (start + 12 * i) % 0x1_0000_0000 }

    predicate Holds(b: seq<byte>, i: nat) { i < count && Offset(i) + 12 <= |b| }

    function Entry(b: seq<byte>, i: nat): Field
      requires Holds(b, i)
    {
      FieldAt(order, b, Offset(i))
    }
  }

  function Open(b: seq<byte>): Option<Directory> {
    if |b| < 8 then None
    else
      match OrderOf(b)
      case None => None
      case Some(o) =>
        var at := Read(o, b, 4, 8);
        if at + 2 > |b| then None else Some(Directory(o, at + 2, Read(o, b, at, at + 2)))
  }

  /** The entry scan from `i`, with the width and the height found so far. */
  function Scan(d: Directory, b: seq<byte>, i: nat, w: Option<nat>, h: Option<nat>): Option<Size>
    decreases d.count - i
  {
    if !d.Holds(b, i) then None
    else
      var w' := if d.Entry(b, i).Width? then Some(d.Entry(b, i).v) else w;
      var h' := if d.Entry(b, i).Height? then Some(d.Entry(b, i).v) else h;
      if !d.Entry(b, i).Other? && w'.Some? && h'.Some? then Some((w'.value, h'.value)) else Scan(d, b, i + 1, w', h')
  }

  /** tiffDimensions. */
  function Dimensions(b: seq<byte>): Option<Size> {
    match Open(b)
    case None => None
    case Some(d) => Scan(d, b, 0, None, None)
  }

  /** Under 4 GiB, no offset computed in 32 bits passes the end of a slice it bounds. */
  method ReadDimensions(b: seq<byte>) returns (r: Option<Size>)
    requires |b| < 0x1_0000_0000
    ensures r == Dimensions(b)
  {
    if |b| < 8 {
      return None;
    }
    var order := OrderOf(b);
    if order.None? {
      return None;
    }
    var o := order.value;
    var ifdOffset := Read(o, b, 4, 8);
    if ifdOffset + 2 > |b| {
      return None;
    }
    var count := Read(o, b, ifdOffset, ifdOffset + 2);
    var entriesStart := ifdOffset + 2;
    var d := Directory(o, entriesStart, count);
    var width: nat, height: nat, foundW, foundH := 0, 0, false, false;
    var i := 0;
    while i < count
      invariant 0 <= i <= count && !(foundW && foundH)
      invariant var w, h := if foundW then Some(width) else None, if foundH then Some(height) else None;
                Dimensions(b) == Scan(d, b, i, w, h)
    {
      var off := d.Offset(i);
      if off + 12 > |b| {
        return None;
      }
      var tag := Read(o, b, off, off + 2);
      if tag == 256 || tag == 257 {
        var kind := Read(o, b, off + 2, off + 4);
        if kind == 3 || kind == 4 {
          var v;
          if kind == 3 {
            v := Read(o, b, off + 8, off + 10);
          } else {
            v := Read(o, b, off + 8, off + 12);
          }
          if tag == 256 {
            width, foundW := v, true;
          } else {
            height, foundH := v, true;
          }
          if foundW && foundH {
            return Some((width, height));
          }
        }
      }
      i := i + 1;
    }
    return None;
  }

  // ----- which entries are answered -----

  /** No entry in [lo, hi) is a width; likewise heights. */
  ghost predicate NoWidth(d: Directory, b: seq<byte>, lo: nat, hi: nat) {
    forall j :: lo <= j < hi ==> d.Holds(b, j) && !d.Entry(b, j).Width?
  }
  ghost predicate NoHeight(d: Directory, b: seq<byte>, lo: nat, hi: nat) {
    forall j :: lo <= j < hi ==> d.Holds(b, j) && !d.Entry(b, j).Height?
  }

  ghost predicate AllHold(d: Directory, b: seq<byte>, n: nat) {
    forall j :: 0 <= j < n ==> d.Holds(b, j)
  }

  /** Entry `i` is the width and entry `j` the height that the directory declares: the one that
      comes second is the first of its tag, and the other is the last of its tag before it. */
  ghost predicate Declares(d: Directory, b: seq<byte>, i: nat, j: nat) {
    && AllHold(d, b, (if i < j then j else i) + 1)
    && d.Entry(b, i).Width? && d.Entry(b, j).Height?
    && (i < j ==> NoHeight(d, b, 0, j) && NoWidth(d, b, i + 1, j))
    && (j < i ==> NoWidth(d, b, 0, i) && NoHeight(d, b, j + 1, i))
  }

  /** The scan up to `i` found nothing, or only one of the two, whose last entry so far is `at`. */
  ghost predicate Found(d: Directory, b: seq<byte>, i: nat, w: Option<nat>, h: Option<nat>, at: nat) {
    && AllHold(d, b, i) && (w.None? || h.None?)
    && (w.None? ==> NoWidth(d, b, 0, i))
    && (h.None? ==> NoHeight(d, b, 0, i))
    && (w.Some? ==> at < i && d.Entry(b, at) == Width(w.value) && NoWidth(d, b, at + 1, i))
    && (h.Some? ==> at < i && d.Entry(b, at) == Height(h.value) && NoHeight(d, b, at + 1, i))
  }

  lemma {:induction false} ScanDeclares(d: Directory, b: seq<byte>, i: nat, w: Option<nat>, h: Option<nat>, at: nat)
    returns (iw: nat, ih: nat)
    requires Found(d, b, i, w, h, at) && Scan(d, b, i, w, h).Some?
    ensures Declares(d, b, iw, ih) && Scan(d, b, i, w, h) == Some((d.Entry(b, iw).v, d.Entry(b, ih).v))
    decreases d.count - i
  {
    match d.Entry(b, i)
    case Width(v) =>
      if h.Some? { iw, ih := i, at; } else { iw, ih := ScanDeclares(d, b, i + 1, Some(v), h, i); }
    case Height(v) =>
      if w.Some? { iw, ih := at, i; } else { iw, ih := ScanDeclares(d, b, i + 1, w, Some(v), i); }
    case Other =>
      iw, ih := ScanDeclares(d, b, i + 1, w, h, at);
  }

  /** While the scan has not reached the later of two declaring entries, it has found no more
      than the earlier one. */
  lemma {:induction false} DeclaresScan(d: Directory, b: seq<byte>, i: nat, w: Option<nat>, h: Option<nat>, iw: nat,
                                        ih: nat)
    requires Declares(d, b, iw, ih) && (i <= iw || i <= ih)
    requires iw < i ==> w == Some(d.Entry(b, iw).v) && h.None?
    requires ih < i ==> h == Some(d.Entry(b, ih).v) && w.None?
    requires i <= iw && i <= ih ==> if iw < ih then h.None? else w.None?
    ensures Scan(d, b, i, w, h) == Some((d.Entry(b, iw).v, d.Entry(b, ih).v))
    decreases d.count - i
  {
    if i != iw && i != ih {
      var w' := if d.Entry(b, i).Width? then Some(d.Entry(b, i).v) else w;
      var h' := if d.Entry(b, i).Height? then Some(d.Entry(b, i).v) else h;
      DeclaresScan(d, b, i + 1, w', h', iw, ih);
    } else if i == iw && i < ih {
      DeclaresScan(d, b, i + 1, Some(d.Entry(b, i).v), h, iw, ih);
    } else if i == ih && i < iw {
      DeclaresScan(d, b, i + 1, w, Some(d.Entry(b, i).v), iw, ih);
    }
  }

  /** Exactness: the answer is the width and the height that two entries declare, and there is
      an answer exactly when two entries do. */
  lemma AnswersIffDeclared(b: seq<byte>, size: Size)
    ensures Dimensions(b) == Some(size) <==>
              && Open(b).Some?
              && (exists i, j :: Declares(Open(b).value, b, i, j)
                                 && size == (Open(b).value.Entry(b, i).v, Open(b).value.Entry(b, j).v))
  {
    if Open(b).Some? {
      var d := Open(b).value;
      if Dimensions(b) == Some(size) {
        var i, j := ScanDeclares(d, b, 0, None, None, 0);
      }
      forall i, j | Declares(d, b, i, j) ensures Dimensions(b) == Some((d.Entry(b, i).v, d.Entry(b, j).v)) {
        DeclaresScan(d, b, 0, None, None, i, j);
      }
    }
  }

  lemma FieldFits(o: Order, b: seq<byte>, off: nat)
    requires off + 12 <= |b|
    ensures FieldAt(o, b, off).Other? || FieldAt(o, b, off).v < 0x1_0000_0000
  {
    SmallBelow(b, off + 8, off + 10);
    SmallBelow(b, off + 8, off + 12);
  }

  lemma DimensionsFit(b: seq<byte>)
    requires Dimensions(b).Some?
    ensures Dimensions(b).value.0 < 0x1_0000_0000 && Dimensions(b).value.1 < 0x1_0000_0000
  {
    var d := Open(b).value;
    var i, j := ScanDeclares(d, b, 0, None, None, 0);
    assert d.Holds(b, i) && d.Holds(b, j);
    FieldFits(d.order, b, d.Offset(i));
    FieldFits(d.order, b, d.Offset(j));
  }

  // ----- a found size stays found -----

  lemma ReadPrefix(o: Order, b: seq<byte>, more: seq<byte>, lo: nat, hi: nat)
    requires lo <= hi <= |b|
    ensures Read(o, b + more, lo, hi) == Read(o, b, lo, hi)
  {
    LittlePrefix(b, more, lo, hi);
    FoldPrefix(0, b, more, lo, hi);
  }

  lemma FieldStable(o: Order, b: seq<byte>, more: seq<byte>, off: nat)
    requires off + 12 <= |b|
    ensures FieldAt(o, b + more, off) == FieldAt(o, b, off)
  {
    ReadPrefix(o, b, more, off, off + 2);
    ReadPrefix(o, b, more, off + 2, off + 4);
    ReadPrefix(o, b, more, off + 8, off + 10);
    ReadPrefix(o, b, more, off + 8, off + 12);
  }

  lemma {:induction false} ScanStable(d: Directory, b: seq<byte>, more: seq<byte>, i: nat, w: Option<nat>,
                                      h: Option<nat>)
    requires Scan(d, b, i, w, h).Some?
    ensures Scan(d, b + more, i, w, h) == Scan(d, b, i, w, h)
    decreases d.count - i
  {
    FieldStable(d.order, b, more, d.Offset(i));
    var w' := if d.Entry(b, i).Width? then Some(d.Entry(b, i).v) else w;
    var h' := if d.Entry(b, i).Height? then Some(d.Entry(b, i).v) else h;
    if d.Entry(b, i).Other? || w'.None? || h'.None? {
      ScanStable(d, b, more, i + 1, w', h');
    }
  }

  /** Bounded peek refines the unbounded parser. */
  lemma DimensionsStable(b: seq<byte>, more: seq<byte>)
    requires Dimensions(b).Some?
    ensures Dimensions(b + more) == Dimensions(b)
  {
    var d := Open(b).value;
    ReadPrefix(d.order, b, more, 4, 8);
    ReadPrefix(d.order, b, more, d.start - 2, d.start);
    ScanStable(d, b, more, 0, None, None);
  }

  // ----- reading what was written -----

  function WriteWord(o: Order, v: nat, n: nat): (s: seq<byte>)
    ensures |s| == n
  {
    if o.LittleEndian? then WriteLittle(v, n) else WriteBig(v, n)
  }

  /** The two bytes that announce a byte order: "II" and "MM". */
  function Mark(o: Order): seq<byte> {
    match o case LittleEndian => [0x49, 0x49] case BigEndian => [0x4D, 0x4D]
  }

  lemma WordSits(o: Order, b: seq<byte>, pos: nat, v: nat, n: nat)
    requires v < Pow256(n) && Sits(b, pos, WriteWord(o, v, n))
    ensures Read(o, b, pos, pos + n) == v
  {
    if o.LittleEndian? { LittleSits(b, pos, v, n); } else { BigSits(b, pos, v, n); }
  }

  lemma WordWrites(o: Order, b: seq<byte>, pos: nat, n: nat)
    requires pos + n <= |b|
    ensures Sits(b, pos, WriteWord(o, Read(o, b, pos, pos + n), n))
  {
    if o.LittleEndian? { LittleWrites(b, pos, n); } else { BigWrites(b, pos, n); }
  }

  /** A directory entry as written: a SHORT, left-justified in its value field, a LONG, or one of
      another type. The count field may hold anything. */
  datatype Item =
    | Short(tag: nat, count: seq<byte>, v: nat, pad: seq<byte>)
    | Long(tag: nat, count: seq<byte>, v: nat)
    | Misc(tag: nat, kind: nat, count: seq<byte>, value: seq<byte>)
  {
    predicate Legal() {
      && tag < 0x1_0000 && |count| == 4
      && match this
         case Short(_, _, v, pad) => v < 0x1_0000 && |pad| == 2
         case Long(_, _, v) => v < 0x1_0000_0000
         case Misc(_, kind, _, value) => kind < 0x1_0000 && kind != 3 && kind != 4 && |value| == 4
    }
    function Kind(): nat { match this case Short(_, _, _, _) => 3 case Long(_, _, _) => 4 case Misc(_, k, _, _) => k }
    function Value(o: Order): seq<byte> {
      match this
      case Short(_, _, v, pad) => WriteWord(o, v, 2) + pad
      case Long(_, _, v) => WriteWord(o, v, 4)
      case Misc(_, _, _, value) => value
    }
    function Written(o: Order): seq<byte> { WriteWord(o, tag, 2) + WriteWord(o, Kind(), 2) + count + Value(o) }

    /** The entry gives an image size under this tag. */
    predicate Gives(t: nat) { !Misc? && tag == t }
  }

  lemma FourSit(b: seq<byte>, i: nat, p: seq<byte>, q: seq<byte>, r: seq<byte>, s: seq<byte>)
    ensures Sits(b, i, p + q + r + s) <==>
              Sits(b, i, p) && Sits(b, i + |p|, q) && Sits(b, i + |p| + |q|, r) && Sits(b, i + |p| + |q| + |r|, s)
  {
    SitsApart(b, i, p + q + r, s);
    SitsApart(b, i, p + q, r);
    SitsApart(b, i, p, q);
  }

  lemma SmallPowers()
    ensures Pow256(2) == 0x1_0000 && Pow256(4) == 0x1_0000_0000
  {
    assert Pow256(3) == 0x100_0000;
  }

  lemma ValueReads(o: Order, b: seq<byte>, off: nat, item: Item)
    requires item.Legal() && !item.Misc? && Sits(b, off + 8, item.Value(o)) && off + 12 <= |b|
    ensures item.v == if item.Short? then Read(o, b, off + 8, off + 10) else Read(o, b, off + 8, off + 12)
  {
    SmallPowers();
    if item.Short? {
      SitsApart(b, off + 8, WriteWord(o, item.v, 2), item.pad);
      WordSits(o, b, off + 8, item.v, 2);
    } else {
      WordSits(o, b, off + 8, item.v, 4);
    }
  }

  /** Tag 256 is the width, tag 257 the height. */
  lemma ItemReads(o: Order, b: seq<byte>, off: nat, item: Item)
    requires item.Legal() && Sits(b, off, item.Written(o)) && off + 12 <= |b|
    ensures FieldAt(o, b, off) ==
            if item.Gives(256) then Width(item.v) else if item.Gives(257) then Height(item.v) else Other
  {
    FourSit(b, off, WriteWord(o, item.tag, 2), WriteWord(o, item.Kind(), 2), item.count, item.Value(o));
    SmallPowers();
    WordSits(o, b, off, item.tag, 2);
    WordSits(o, b, off + 2, item.Kind(), 2);
    if !item.Misc? { ValueReads(o, b, off, item); }
  }

  function ItemAt(o: Order, b: seq<byte>, off: nat): Item
    requires off + 12 <= |b|
  {
    var tag, kind, count := Read(o, b, off, off + 2), Read(o, b, off + 2, off + 4), b[off + 4..off + 8];
    if kind == 3 then Short(tag, count, Read(o, b, off + 8, off + 10), b[off + 10..off + 12])
    else if kind == 4 then Long(tag, count, Read(o, b, off + 8, off + 12))
    else Misc(tag, kind, count, b[off + 8..off + 12])
  }

  lemma ReadBelow(o: Order, b: seq<byte>, lo: nat, hi: nat)
    requires lo <= hi <= |b|
    ensures hi == lo + 2 ==> Read(o, b, lo, hi) < 0x1_0000
    ensures hi == lo + 4 ==> Read(o, b, lo, hi) < 0x1_0000_0000
  {
    SmallPowers();
    LittleBelow(b, lo, hi);
    FoldBelow(0, 1, b, lo, hi);
  }

  lemma ValueSits(o: Order, b: seq<byte>, off: nat)
    requires off + 12 <= |b|
    ensures Sits(b, off + 8, ItemAt(o, b, off).Value(o)) && |ItemAt(o, b, off).Value(o)| == 4
  {
    var item := ItemAt(o, b, off);
    if item.Short? {
      WordWrites(o, b, off + 8, 2);
      assert Sits(b, off + 10, item.pad);
      SitsApart(b, off + 8, WriteWord(o, item.v, 2), item.pad);
    } else if item.Long? {
      WordWrites(o, b, off + 8, 4);
    }
  }

  /** Every twelve bytes are some entry. */
  lemma ItemComesFrom(o: Order, b: seq<byte>, off: nat)
    requires off + 12 <= |b|
    ensures ItemAt(o, b, off).Legal() && Sits(b, off, ItemAt(o, b, off).Written(o))
  {
    var item := ItemAt(o, b, off);
    ReadBelow(o, b, off, off + 2);
    ReadBelow(o, b, off + 2, off + 4);
    ReadBelow(o, b, off + 8, off + 10);
    ReadBelow(o, b, off + 8, off + 12);
    WordWrites(o, b, off, 2);
    WordWrites(o, b, off + 2, 2);
    assert Sits(b, off + 4, item.count);
    ValueSits(o, b, off);
    FourSit(b, off, WriteWord(o, item.tag, 2), WriteWord(o, item.Kind(), 2), item.count, item.Value(o));
  }

  /** A written file: byte order mark, offset of the directory, number of entries, and at least the
      first entries, each at the offset that 32-bit arithmetic gives it. */
  datatype File = File(order: Order, at: nat, count: nat, items: seq<Item>) {
    function Offset(i: nat): nat { (at + 2 + 12 * i) % 0x1_0000_0000 }

    predicate Stands(b: seq<byte>) {
      && |b| >= 8 && Sits(b, 0, Mark(order))
      && at < 0x1_0000_0000 && Sits(b, 4, WriteWord(order, at, 4))
      && count < 0x1_0000 && Sits(b, at, WriteWord(order, count, 2))
      && |items| <= count
    }
    predicate Holds(b: seq<byte>) {
      Stands(b) && forall i :: 0 <= i < |items| ==> items[i].Legal() && Sits(b, Offset(i), items[i].Written(order))
    }

    /** Entry `i` is the width and entry `j` the height: the later one is the first of its kind, the
        earlier one the last of its kind before it. */
    predicate Declares(i: nat, j: nat) {
      && i < |items| && j < |items| && items[i].Gives(256) && items[j].Gives(257)
      && (i < j ==> forall k :: 0 <= k < j ==> !items[k].Gives(257) && (i < k ==> !items[k].Gives(256)))
      && (j < i ==> forall k :: 0 <= k < i ==> !items[k].Gives(256) && (j < k ==> !items[k].Gives(257)))
    }

    /** The file declares this size. */
    ghost predicate Sized(b: seq<byte>, i: nat, j: nat, size: Size) {
      Holds(b) && Declares(i, j) && size == (items[i].v, items[j].v)
    }
  }

  lemma OpenReads(b: seq<byte>, f: File)
    requires f.Stands(b)
    ensures Open(b) == Some(Directory(f.order, f.at + 2, f.count))
  {
    SmallPowers();
    var mark := Mark(f.order);
    assert b[0 + 0] == mark[0] && b[0 + 1] == mark[1];
    WordSits(f.order, b, 4, f.at, 4);
    WordSits(f.order, b, f.at, f.count, 2);
  }

  /** Entry `i` of the directory says what the written entry gives. */
  ghost predicate Agrees(d: Directory, b: seq<byte>, i: nat, item: Item) {
    && d.Holds(b, i)
    && d.Entry(b, i) == if item.Gives(256) then Width(item.v) else if item.Gives(257) then Height(item.v) else Other
  }

  lemma EntryReads(b: seq<byte>, f: File, i: nat)
    requires f.Holds(b) && i < |f.items|
    ensures Agrees(Directory(f.order, f.at + 2, f.count), b, i, f.items[i])
  {
    ItemReads(f.order, b, f.Offset(i), f.items[i]);
  }

  lemma AgreeingDeclares(d: Directory, b: seq<byte>, f: File, i: nat, j: nat)
    requires forall k: nat :: k < |f.items| ==> Agrees(d, b, k, f.items[k])
    requires f.Declares(i, j)
    ensures Declares(d, b, i, j) && d.Entry(b, i) == Width(f.items[i].v) && d.Entry(b, j) == Height(f.items[j].v)
  {
    forall k: nat | k < |f.items|
      ensures d.Holds(b, k)
      ensures d.Entry(b, k).Width? <==> f.items[k].Gives(256)
      ensures d.Entry(b, k).Height? <==> f.items[k].Gives(257)
    {
      assert Agrees(d, b, k, f.items[k]);
    }
    assert Agrees(d, b, i, f.items[i]) && Agrees(d, b, j, f.items[j]);
  }

  lemma FileDeclares(b: seq<byte>, f: File, i: nat, j: nat)
    requires f.Holds(b) && f.Declares(i, j)
    ensures var d := Directory(f.order, f.at + 2, f.count);
            Declares(d, b, i, j) && d.Entry(b, i) == Width(f.items[i].v) && d.Entry(b, j) == Height(f.items[j].v)
  {
    var d := Directory(f.order, f.at + 2, f.count);
    forall k: nat | k < |f.items| ensures Agrees(d, b, k, f.items[k]) {
      EntryReads(b, f, k);
    }
    AgreeingDeclares(d, b, f, i, j);
  }

  /** Round trip: in either byte order, with SHORT or LONG values and any other entries around them,
      the declared width and height are read. */
  lemma FileReads(b: seq<byte>, f: File, i: nat, j: nat)
    requires f.Holds(b) && f.Declares(i, j)
    ensures Dimensions(b) == Some((f.items[i].v, f.items[j].v))
  {
    OpenReads(b, f);
    FileDeclares(b, f, i, j);
    DeclaresScan(Directory(f.order, f.at + 2, f.count), b, 0, None, None, i, j);
  }

  // ----- every answer is such a file -----

  lemma OpenComesFrom(b: seq<byte>, items: seq<Item>) returns (f: File)
    requires Open(b).Some? && |items| <= Open(b).value.count
    ensures f.Stands(b) && f.items == items && Open(b) == Some(Directory(f.order, f.at + 2, f.count))
  {
    var d := Open(b).value;
    f := File(d.order, d.start - 2, d.count, items);
    ReadBelow(d.order, b, 4, 8);
    ReadBelow(d.order, b, f.at, f.at + 2);
    WordWrites(d.order, b, 4, 4);
    WordWrites(d.order, b, f.at, 2);
  }

  /** The first `n` entries of a directory. */
  function ItemsOf(d: Directory, b: seq<byte>, n: nat): seq<Item>
    requires forall i :: 0 <= i < n ==> d.Holds(b, i)
  {
    seq(n, i requires 0 <= i < n && d.Holds(b, i) => ItemAt(d.order, b, d.Offset(i)))
  }

  lemma ItemsStand(b: seq<byte>, n: nat) returns (f: File)
    requires Open(b).Some? && 0 < n && AllHold(Open(b).value, b, n)
    ensures f.Holds(b) && |f.items| == n && Open(b) == Some(Directory(f.order, f.at + 2, f.count))
  {
    var d := Open(b).value;
    assert d.Holds(b, n - 1);
    f := OpenComesFrom(b, ItemsOf(d, b, n));
    forall i | 0 <= i < n ensures f.items[i].Legal() && Sits(b, f.Offset(i), f.items[i].Written(f.order)) {
      assert d.Holds(b, i);
      ItemComesFrom(d.order, b, d.Offset(i));
    }
  }

  lemma AnswerComesFrom(b: seq<byte>) returns (f: File, i: nat, j: nat)
    requires Dimensions(b).Some?
    ensures f.Sized(b, i, j, Dimensions(b).value)
  {
    var d := Open(b).value;
    i, j := ScanDeclares(d, b, 0, None, None, 0);
    var n := (if i < j then j else i) + 1;
    f := ItemsStand(b, n);
    forall k: nat | k < n ensures Agrees(d, b, k, f.items[k]) {
      EntryReads(b, f, k);
    }
    DeclaredByItems(d, b, f, i, j);
  }

  lemma DeclaredByItems(d: Directory, b: seq<byte>, f: File, i: nat, j: nat)
    requires Declares(d, b, i, j) && |f.items| == (if i < j then j else i) + 1
    requires forall k: nat :: k < |f.items| ==> Agrees(d, b, k, f.items[k])
    ensures f.Declares(i, j) && d.Entry(b, i) == Width(f.items[i].v) && d.Entry(b, j) == Height(f.items[j].v)
  {
    assert Agrees(d, b, i, f.items[i]) && Agrees(d, b, j, f.items[j]);
    forall k: nat | k < |f.items|
      ensures i < j && k < j ==> !f.items[k].Gives(257) && (i < k ==> !f.items[k].Gives(256))
      ensures j < i && k < i ==> !f.items[k].Gives(256) && (j < k ==> !f.items[k].Gives(257))
    {
      assert Agrees(d, b, k, f.items[k]);
    }
  }

  /** Exactness: a size is answered if and only if the bytes hold a written file that declares it. */
  lemma AnsweredIffWritten(b: seq<byte>, size: Size)
    ensures Dimensions(b) == Some(size) <==> exists f: File, i: nat, j: nat :: f.Sized(b, i, j, size)
  {
    if Dimensions(b) == Some(size) {
      var f, i, j := AnswerComesFrom(b);
    }
    forall f: File, i: nat, j: nat | f.Sized(b, i, j, size) ensures Dimensions(b) == Some(size) {
      FileReads(b, f, i, j);
    }
  }
}
