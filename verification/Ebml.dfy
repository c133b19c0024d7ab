/** The bounded EBML header walk of internal/convert/avsniff.go, against the element grammar
    of RFC 8794 sections 4 and 5. */
module Ebml {
  import opened Wrappers
  import opened Bytes

  const MAGIC: seq<byte> := [0x1A, 0x45, 0xDF, 0xA3]
  const DOCTYPE_ID := 0x4282
  const MATROSKA: seq<byte> := [0x6D, 0x61, 0x74, 0x72, 0x6F, 0x73, 0x6B, 0x61]
  const WEBM: seq<byte> := [0x77, 0x65, 0x62, 0x6D]

  datatype Format = Mkv | Webm

  // ----- variable-length integers -----

  function Pow2(k: nat): (p: nat)
    ensures p >= 1
  {
    if k == 0 then 1 else 2 * Pow2(k - 1)
  }

  /** The marker bit of a vint of `n` bytes. */
  function Marker(n: nat): nat
    requires 1 <= n <= 8
  {
    Pow2(8 - n)
  }

  /** `first` starts a vint of `n` bytes: its leading set bit is the n-th. */
  predicate Starts(first: byte, n: nat) {
    1 <= n <= 8 && Marker(n) <= first < 2 * Marker(n)
  }

  lemma Markers()
    ensures Marker(1) == 128 && Marker(2) == 64 && Marker(3) == 32 && Marker(4) == 16
    ensures Marker(5) == 8 && Marker(6) == 4 && Marker(7) == 2 && Marker(8) == 1
  {
    assert Pow2(2) == 4;
    assert Pow2(4) == 16;
    assert Pow2(6) == 64;
  }

  lemma SomeStart(first: byte) returns (n: nat)
    requires first > 0
    ensures Starts(first, n)
  {
    Markers();
    n := if first >= 128 then 1 else if first >= 64 then 2 else if first >= 32 then 3 else if first >= 16 then 4
    else if first >= 8 then 5 else if first >= 4 then 6 else if first >= 2 then 7 else 8;
  }

  lemma OneStart(first: byte, m: nat, n: nat)
    requires Starts(first, m) && Starts(first, n)
    ensures m == n
  {
    Markers();
  }

  /** Length of the vint a byte starts, 0 for none. */
  ghost function VintLen(first: byte): (n: nat)
    ensures n <= 8
  {
    if first == 0 then 0
    else
      assert exists n: nat :: Starts(first, n) by { var n := SomeStart(first); }
      var n: nat :| Starts(first, n);
      n
  }

  lemma VintStarts(first: byte)
    ensures VintLen(first) > 0 ==> Starts(first, VintLen(first))
    ensures VintLen(first) == 0 <==> first == 0
  {
  }

  /** The value of a first byte without its marker. */
  ghost function Lead(first: byte): nat {
    VintStarts(first);
    if first == 0 then 0 else first - Marker(VintLen(first))
  }

  lemma TopBit(first: nat, mask: nat)
    requires 0 < mask && first < 2 * mask
    ensures (first / mask) % 2 != 0 <==> first >= mask
  {
  }

  /** vintLen: tests the bits from the top. */
  method VintLength(first: byte) returns (n: nat)
    ensures n == VintLen(first)
  {
    Markers();
    var i, mask: nat := 0, 128;
    while i < 8
      invariant 0 <= i <= 8
      invariant i < 8 ==> mask == Marker(i + 1) && first < 2 * mask
      invariant i == 8 ==> first == 0
    {
      TopBit(first, mask);
      if (first / mask) % 2 != 0 {
        VintStarts(first);
        OneStart(first, i + 1, VintLen(first));
        return i + 1;
      }
      mask := mask / 2;
      i := i + 1;
    }
    return 0;
  }

  // ----- how integers are read; the walk below does not depend on it -----

  /** A reading of variable-length integers: the length a first byte announces, and the value
      of a complete integer as a size and as an element id. */
  datatype Reading = Reading(len: byte -> nat, size: seq<byte> -> nat, id: seq<byte> -> nat)

  ghost function SizeValue(v: seq<byte>): nat {
    if v == [] then 0 else Fold(Lead(v[0]), v, 1, |v|)
  }

  function IdValue(v: seq<byte>): nat { Big(v, 0, |v|) }

  /** RFC 8794: sizes drop the marker bit, ids keep it. */
  ghost function Rfc8794(): Reading { Reading(VintLen, SizeValue, IdValue) }

  /** A complete vint: as long as its first byte says. */
  ghost predicate IsVint(c: Reading, v: seq<byte>) { v != [] && |v| == c.len(v[0]) }

  /** The size vint at `pos`: its value and its length. */
  ghost function ReadSize(c: Reading, s: seq<byte>, pos: nat): Option<(nat, nat)> {
    if pos >= |s| then None
    else
      var n := c.len(s[pos]);
      if n == 0 || pos + n > |s| then None else Some((c.size(s[pos..pos + n]), n))
  }

  /** The element id at `pos`, of at most four bytes. */
  ghost function ReadId(c: Reading, s: seq<byte>, pos: nat): Option<(nat, nat)> {
    if pos >= |s| then None
    else
      var n := c.len(s[pos]);
      if n == 0 || n > 4 || pos + n > |s| then None else Some((c.id(s[pos..pos + n]), n))
  }

  lemma ClearsMarker(first: byte, n: nat)
    requires n > 0 && n == VintLen(first)
    ensures first % Marker(n) == Lead(first)
  {
    VintStarts(first);
    ModOnce(first, Marker(n));
  }

  lemma ModOnce(x: nat, m: nat)
    requires 0 < m <= x < 2 * m
    ensures x % m == x - m
  {
  }

  /** No size exceeds 56 bits, so sums with a buffer position never wrap in uint64. */
  lemma SizeBelow(v: seq<byte>)
    requires v != [] && |v| == VintLen(v[0])
    ensures SizeValue(v) < 0x1_0000_0000_0000_00
  {
    VintStarts(v[0]);
    FoldBelow(Lead(v[0]), Marker(|v|), v, 1, |v|);
    WidestSize(|v|);
  }

  lemma WidestSize(n: nat)
    requires 1 <= n <= 8
    ensures Marker(n) * Pow256(n - 1) <= 0x1_0000_0000_0000_00
  {
    Markers();
    assert Pow256(1) == 0x100 && Pow256(2) == 0x10000 && Pow256(3) == 0x1000000;
    assert Pow256(4) == 0x1_0000_0000 && Pow256(5) == 0x100_0000_0000;
    assert Pow256(6) == 0x1_0000_0000_0000 && Pow256(7) == 0x100_0000_0000_0000;
  }

  method ReadSizeVint(buf: seq<byte>, pos: nat) returns (r: Option<(nat, nat)>)
    ensures r == ReadSize(Rfc8794(), buf, pos)
    ensures r.Some? ==> r.value.0 < 0x1_0000_0000_0000_00 && 1 <= r.value.1 && pos + r.value.1 <= |buf|
  {
    if pos >= |buf| {
      return None;
    }
    var n := VintLength(buf[pos]);
    if n == 0 || pos + n > |buf| {
      return None;
    }
    ghost var v := buf[pos..pos + n];
    ClearsMarker(buf[pos], n);
    var value: nat, i := buf[pos] % Marker(n), 1;
    while i < n
      invariant 1 <= i <= n
      invariant value == Fold(Lead(v[0]), v, 1, i)
    {
      value := value * 256 + buf[pos + i];
      i := i + 1;
    }
    SizeBelow(v);
    return Some((value, n));
  }

  method ReadIdVint(buf: seq<byte>, pos: nat) returns (r: Option<(nat, nat)>)
    ensures r == ReadId(Rfc8794(), buf, pos)
    ensures r.Some? ==> 1 <= r.value.1 && pos + r.value.1 <= |buf|
  {
    if pos >= |buf| {
      return None;
    }
    var n := VintLength(buf[pos]);
    if n == 0 || n > 4 || pos + n > |buf| {
      return None;
    }
    ghost var id := buf[pos..pos + n];
    var v: nat, i := 0, 0;
    while i < n
      invariant 0 <= i <= n
      invariant v == Fold(0, id, 0, i)
    {
      v := v * 256 + buf[pos + i];
      i := i + 1;
    }
    return Some((v, n));
  }

  // ----- the walk -----

  /** An element found in a buffer: its id, and where its payload lies. */
  datatype Item = Item(id: nat, body: nat, next: nat)

  ghost function ReadItem(c: Reading, s: seq<byte>, pos: nat): (r: Option<Item>)
    ensures r.Some? ==> pos < r.value.body <= r.value.next <= |s|
  {
    match ReadId(c, s, pos)
    case None => None
    case Some((id, idLen)) =>
      match ReadSize(c, s, pos + idLen)
      case None => None
      case Some((size, sizeLen)) =>
        var body := pos + idLen + sizeLen;
        if body + size > |s| then None else Some(Item(id, body, body + size))
  }

  /** What stands at each position of a buffer, if an element does. */
  type Reader = nat -> Option<Item>

  ghost function Items(c: Reading, s: seq<byte>): Reader { (p: nat) => ReadItem(c, s, p) }

  /** Walks the elements from `pos` up to `end` to the DocType element. */
  ghost function DocType(read: Reader, pos: nat, end: nat): Option<Item>
    decreases if pos < end then end - pos else 0
  {
    if pos >= end then None
    else
      var item := read(pos);
      if item.None? || item.value.id == DOCTYPE_ID || item.value.next <= pos then item
      else DocType(read, item.value.next, end)
  }

  function Min(a: int, b: int): int { if a < b then a else b }

  /** The DocType behind a header's size, as read at `pos`. */
  ghost function Behind(c: Reading, s: seq<byte>, pos: nat, size: Option<(nat, nat)>): Option<Item> {
    match size
    case None => None
    case Some((headerSize, sizeLen)) => DocType(Items(c, s), pos + sizeLen, Min(pos + sizeLen + headerSize, |s|))
  }

  /** The DocType of a header whose size vint is at `pos`. */
  ghost function Opening(c: Reading, s: seq<byte>, pos: nat): Option<Item> { Behind(c, s, pos, ReadSize(c, s, pos)) }

  function FormatOf(docType: seq<byte>): Option<Format> {
    if docType == MATROSKA then Some(Mkv) else if docType == WEBM then Some(Webm) else None
  }

  /** What matchEBML answers for a peeked prefix, under a reading of integers. */
  ghost function MatchWith(c: Reading, buf: seq<byte>): Option<Format> {
    if |buf| < 5 || buf[..4] != MAGIC then None
    else
      match Opening(c, buf, 4)
      case None => None
      case Some(item) => if item.body <= item.next <= |buf| then FormatOf(buf[item.body..item.next]) else None
  }

  ghost function Match(buf: seq<byte>): Option<Format> { MatchWith(Rfc8794(), buf) }

  /** Where an id of length `idLen` and a size of length `sizeLen` put the payload. */
  function ItemOf(end: nat, pos: nat, id: (nat, nat), size: (nat, nat)): Option<Item> {
    var body := pos + id.1 + size.1;
    if body + size.0 > end then None else Some(Item(id.0, body, body + size.0))
  }

  lemma ItemIs(c: Reading, s: seq<byte>, pos: nat)
    ensures ReadId(c, s, pos).None? ==> ReadItem(c, s, pos).None?
    ensures ReadId(c, s, pos).Some? ==>
              var id := ReadId(c, s, pos).value;
              match ReadSize(c, s, pos + id.1)
              case None => ReadItem(c, s, pos).None?
              case Some(size) => ReadItem(c, s, pos) == ItemOf(|s|, pos, id, size)
  {
  }

  method ReadItemAt(buf: seq<byte>, pos: nat) returns (r: Option<Item>)
    ensures r == ReadItem(Rfc8794(), buf, pos)
  {
    ghost var c := Rfc8794();
    ItemIs(c, buf, pos);
    var id := ReadIdVint(buf, pos);
    if id.None? {
      return None;
    }
    var size := ReadSizeVint(buf, pos + id.value.1);
    if size.None? {
      return None;
    }
    return ItemOf(|buf|, pos, id.value, size.value);
  }

  /** The loop of matchEBML. */
  method FindDocType(buf: seq<byte>, start: nat, end: nat) returns (docType: Option<Item>)
    requires start <= |buf| && end <= |buf|
    ensures docType == DocType(Items(Rfc8794(), buf), start, end)
    ensures docType.Some? ==> docType.value.body <= docType.value.next <= |buf|
  {
    ghost var read := Items(Rfc8794(), buf);
    var pos := start;
    while pos < end
      invariant start <= pos <= |buf|
      invariant DocType(read, start, end) == DocType(read, pos, end)
      decreases |buf| - pos
    {
      var item := ReadItemAt(buf, pos);
      if item.None? || item.value.id == DOCTYPE_ID {
        return item;
      }
      pos := item.value.next;
    }
    return None;
  }

  /** matchEBML behind the magic number. */
  method ReadOpening(buf: seq<byte>, start: nat) returns (docType: Option<Item>)
    ensures docType == Opening(Rfc8794(), buf, start)
    ensures docType.Some? ==> docType.value.body <= docType.value.next <= |buf|
  {
    var header := ReadSizeVint(buf, start);
    if header.None? {
      return None;
    }
    var pos := start + header.value.1;
    docType := FindDocType(buf, pos, Min(pos + header.value.0, |buf|));
    assert docType == Behind(Rfc8794(), buf, start, header);
  }

  method MatchEbml(buf: seq<byte>) returns (format: Option<Format>)
    ensures format == Match(buf)
  {
    if |buf| < 5 || buf[..4] != MAGIC {
      return None;
    }
    var docType := ReadOpening(buf, 4);
    if docType.None? {
      return None;
    }
    return FormatOf(buf[docType.value.body..docType.value.next]);
  }

  // ----- the grammar: elements as written -----

  datatype Element = Element(id: seq<byte>, size: seq<byte>, payload: seq<byte>) {
    ghost predicate Legal(c: Reading) {
      IsVint(c, id) && |id| <= 4 && IsVint(c, size) && c.size(size) == |payload|
    }
    function Written(): seq<byte> { id + size + payload }
  }

  function Write(es: seq<Element>): seq<byte> {
    if es == [] then [] else es[0].Written() + Write(es[1..])
  }

  /** The elements up to the DocType: none before it carries its id. */
  ghost predicate Elements(c: Reading, before: seq<Element>, docType: Element) {
    && (forall e <- before :: e.Legal(c) && c.id(e.id) != DOCTYPE_ID)
    && docType.Legal(c) && c.id(docType.id) == DOCTYPE_ID
  }

  /** A header as an encoder writes it: a header size that reaches past the elements before the
      DocType, those elements, the DocType element, and anything after. */
  datatype Header = Header(size: seq<byte>, before: seq<Element>, docType: Element, rest: seq<byte>) {
    ghost predicate Legal(c: Reading) {
      IsVint(c, size) && c.size(size) > |Write(before)| && Elements(c, before, docType)
    }
    function Front(): seq<byte> { MAGIC + size + Write(before) + docType.Written() }
    function Written(): seq<byte> { Front() + rest }
  }

  /** Writes `n` as a vint with `k` bytes after the first, whose marker is `marker`. */
  function WriteVint(n: nat, k: nat, marker: nat): (v: seq<byte>)
    requires 1 <= marker <= 128 && n < marker * Pow256(k)
    ensures |v| == k + 1 && marker <= v[0] < 2 * marker
    decreases k
  {
    if k == 0 then [marker + n]
    else
      NarrowerFits(n, k, marker);
      WriteVint(n / 256, k - 1, marker) + [n % 256]
  }

  lemma NarrowerFits(n: nat, k: nat, marker: nat)
    requires 0 < k && n < marker * Pow256(k)
    ensures n / 256 < marker * Pow256(k - 1)
  {
    assert marker * Pow256(k) == 256 * (marker * Pow256(k - 1));
  }

  lemma {:induction false} WrittenVintReads(n: nat, k: nat, marker: nat)
    requires 1 <= marker <= 128 && n < marker * Pow256(k)
    ensures var v := WriteVint(n, k, marker); Fold(v[0] - marker, v, 1, k + 1) == n
    decreases k
  {
    if k > 0 {
      NarrowerFits(n, k, marker);
      WrittenVintReads(n / 256, k - 1, marker);
      var v, v' := WriteVint(n, k, marker), WriteVint(n / 256, k - 1, marker);
      FoldSits(v[0] - marker, v, 0, v', 1, k);
    }
  }

  lemma StartsVint(v: seq<byte>)
    requires v != [] && Starts(v[0], |v|)
    ensures VintLen(v[0]) == |v| && Lead(v[0]) == v[0] - Marker(|v|)
  {
    VintStarts(v[0]);
    OneStart(v[0], |v|, VintLen(v[0]));
  }

  /** Every size that fits has a legal encoding of every width it fits in. */
  lemma SizeEncodes(n: nat, width: nat) returns (v: seq<byte>)
    requires 1 <= width <= 8 && n < Marker(width) * Pow256(width - 1)
    ensures IsVint(Rfc8794(), v) && |v| == width && SizeValue(v) == n
  {
    MarkerIsByte(width);
    v := WriteVint(n, width - 1, Marker(width));
    WrittenVintReads(n, width - 1, Marker(width));
    StartsVint(v);
  }

  lemma MarkerIsByte(n: nat)
    requires 1 <= n <= 8
    ensures 1 <= Marker(n) <= 128
  {
    Markers();
  }

  // ----- reading what was written -----

  lemma ReadsElement(c: Reading, s: seq<byte>, pos: nat, e: Element)
    requires e.Legal(c) && Sits(s, pos, e.Written())
    ensures ReadItem(c, s, pos) == Some(Item(c.id(e.id), pos + |e.id| + |e.size|, pos + |e.Written()|))
    ensures s[pos + |e.id| + |e.size|..pos + |e.Written()|] == e.payload
  {
    SitsApart(s, pos, e.id + e.size, e.payload);
    SitsApart(s, pos, e.id, e.size);
    assert s[pos + 0] == e.id[0] && s[pos + |e.id| + 0] == e.size[0];
    SitsIsSlice(s, pos, e.id);
    SitsIsSlice(s, pos + |e.id|, e.size);
    SitsIsSlice(s, pos + |e.id + e.size|, e.payload);
  }

  /** A walk of `items` from `pos`: each read where the one before ends, the last one the only
      DocType, and all of them starting before `end`. */
  ghost predicate Walk(read: Reader, pos: nat, end: nat, items: seq<Item>)
    decreases |items|
  {
    && items != [] && pos < end && read(pos) == Some(items[0])
    && if |items| == 1 then items[0].id == DOCTYPE_ID
       else items[0].id != DOCTYPE_ID && pos < items[0].next && Walk(read, items[0].next, end, items[1..])
  }

  lemma WalkExtends(read: Reader, pos: nat, end: nat, item: Item, tail: seq<Item>)
    requires pos < end && read(pos) == Some(item) && item.id != DOCTYPE_ID
    requires pos < item.next && Walk(read, item.next, end, tail)
    ensures Walk(read, pos, end, [item] + tail)
  {
    assert ([item] + tail)[1..] == tail;
  }

  lemma {:induction false} WalkFinds(read: Reader, pos: nat, end: nat, items: seq<Item>)
    requires Walk(read, pos, end, items)
    ensures DocType(read, pos, end) == Some(items[|items| - 1])
    decreases |items|
  {
    if |items| > 1 {
      WalkFinds(read, items[0].next, end, items[1..]);
    }
  }

  lemma {:induction false} FoundByWalk(read: Reader, pos: nat, end: nat) returns (items: seq<Item>)
    requires DocType(read, pos, end).Some? && forall p: nat :: read(p).Some? ==> p < read(p).value.next
    ensures Walk(read, pos, end, items) && DocType(read, pos, end) == Some(items[|items| - 1])
    decreases if pos < end then end - pos else 0
  {
    var item := read(pos).value;
    if item.id == DOCTYPE_ID {
      items := [item];
    } else {
      var tail := FoundByWalk(read, item.next, end);
      items := [item] + tail;
      WalkExtends(read, pos, end, item, tail);
    }
  }

  ghost predicate PayloadIs(s: seq<byte>, item: Item, payload: seq<byte>) {
    item.body <= item.next <= |s| && s[item.body..item.next] == payload
  }

  lemma RestSits(s: seq<byte>, pos: nat, es: seq<Element>)
    requires es != [] && Sits(s, pos, Write(es))
    ensures var next := pos + |es[0].Written()|;
            && Sits(s, pos, es[0].Written()) && Sits(s, next, Write(es[1..]))
            && pos + |Write(es)| == next + |Write(es[1..])|
  {
    SitsApart(s, pos, es[0].Written(), Write(es[1..]));
  }

  /** The elements from `pos`, and the DocType element at `at`, where they end. */
  ghost predicate Stand(c: Reading, s: seq<byte>, pos: nat, at: nat, before: seq<Element>, docType: Element) {
    && Elements(c, before, docType) && Sits(s, pos, Write(before)) && at == pos + |Write(before)|
    && Sits(s, at, docType.Written())
  }

  lemma DocTypeReads(c: Reading, s: seq<byte>, pos: nat, docType: Element) returns (item: Item)
    requires docType.Legal(c) && c.id(docType.id) == DOCTYPE_ID && Sits(s, pos, docType.Written())
    ensures ReadItem(c, s, pos) == Some(item) && item.id == DOCTYPE_ID && PayloadIs(s, item, docType.payload)
  {
    ReadsElement(c, s, pos, docType);
    item := ReadItem(c, s, pos).value;
  }

  lemma FirstReads(c: Reading, s: seq<byte>, pos: nat, at: nat, before: seq<Element>, docType: Element)
    returns (item: Item)
    requires before != [] && Stand(c, s, pos, at, before, docType)
    ensures ReadItem(c, s, pos) == Some(item) && item.id != DOCTYPE_ID && pos < item.next <= at
    ensures Stand(c, s, item.next, at, before[1..], docType)
  {
    RestSits(s, pos, before);
    ReadsElement(c, s, pos, before[0]);
    item := ReadItem(c, s, pos).value;
  }

  lemma {:induction false} ElementsWalk(c: Reading, s: seq<byte>, pos: nat, at: nat, end: nat, before: seq<Element>,
                                        docType: Element)
    returns (items: seq<Item>)
    requires Stand(c, s, pos, at, before, docType) && at < end
    ensures Walk(Items(c, s), pos, end, items) && PayloadIs(s, items[|items| - 1], docType.payload)
    decreases |before|
  {
    if before == [] {
      var item := DocTypeReads(c, s, pos, docType);
      items := [item];
    } else {
      var item := FirstReads(c, s, pos, at, before, docType);
      var tail := ElementsWalk(c, s, item.next, at, end, before[1..], docType);
      items := [item] + tail;
      WalkExtends(Items(c, s), pos, end, item, tail);
    }
  }

  lemma ReadsSize(c: Reading, s: seq<byte>, pos: nat, size: seq<byte>)
    requires IsVint(c, size) && Sits(s, pos, size)
    ensures ReadSize(c, s, pos) == Some((c.size(size), |size|))
  {
    assert s[pos + 0] == size[0];
    SitsIsSlice(s, pos, size);
  }

  /** Header size, elements and DocType stand one after the other from `pos`. */
  ghost predicate Laid(c: Reading, s: seq<byte>, pos: nat, size: seq<byte>, before: seq<Element>, docType: Element) {
    && IsVint(c, size) && c.size(size) > |Write(before)| && Sits(s, pos, size)
    && Stand(c, s, pos + |size|, pos + |size| + |Write(before)|, before, docType)
  }

  /** The walk that follows a header's size vint. */
  ghost function Following(c: Reading, s: seq<byte>, pos: nat, size: seq<byte>): Option<Item> {
    DocType(Items(c, s), pos + |size|, Min(pos + |size| + c.size(size), |s|))
  }

  lemma OpeningFollows(c: Reading, s: seq<byte>, pos: nat, size: seq<byte>)
    requires IsVint(c, size) && Sits(s, pos, size)
    ensures Opening(c, s, pos) == Following(c, s, pos, size)
  {
    ReadsSize(c, s, pos, size);
  }

  lemma StandInside(c: Reading, s: seq<byte>, pos: nat, at: nat, before: seq<Element>, docType: Element)
    requires Stand(c, s, pos, at, before, docType)
    ensures at < |s|
  {
    assert |docType.Written()| > 0;
  }

  lemma WalkReads(c: Reading, s: seq<byte>, pos: nat, at: nat, end: nat, before: seq<Element>, docType: Element)
    requires Stand(c, s, pos, at, before, docType) && at < end
    ensures var item := DocType(Items(c, s), pos, end); item.Some? && PayloadIs(s, item.value, docType.payload)
  {
    var items := ElementsWalk(c, s, pos, at, end, before, docType);
    WalkFinds(Items(c, s), pos, end, items);
  }

  lemma FollowingReads(c: Reading, s: seq<byte>, pos: nat, size: seq<byte>, before: seq<Element>, docType: Element)
    requires Laid(c, s, pos, size, before, docType)
    ensures var item := Following(c, s, pos, size); item.Some? && PayloadIs(s, item.value, docType.payload)
  {
    var next := pos + |size|;
    var at := next + |Write(before)|;
    StandInside(c, s, next, at, before, docType);
    WalkReads(c, s, next, at, Min(next + c.size(size), |s|), before, docType);
  }

  lemma OpeningReads(c: Reading, s: seq<byte>, pos: nat, size: seq<byte>, before: seq<Element>, docType: Element)
    requires Laid(c, s, pos, size, before, docType)
    ensures Opening(c, s, pos).Some? && PayloadIs(s, Opening(c, s, pos).value, docType.payload)
  {
    FollowingReads(c, s, pos, size, before, docType);
    OpeningFollows(c, s, pos, size);
  }

  /** A header's front stands at 0 exactly when its parts stand one after the other. */
  lemma FrontApart(s: seq<byte>, h: Header)
    ensures Sits(s, 0, h.Front()) <==>
              && Sits(s, 0, MAGIC) && Sits(s, 4, h.size) && Sits(s, 4 + |h.size|, Write(h.before))
              && Sits(s, 4 + |h.size| + |Write(h.before)|, h.docType.Written())
  {
    var a := MAGIC + h.size;
    var b := a + Write(h.before);
    SitsApart(s, 0, b, h.docType.Written());
    SitsApart(s, 0, a, Write(h.before));
    SitsApart(s, 0, MAGIC, h.size);
  }

  lemma HeaderSits(c: Reading, h: Header)
    requires h.Legal(c)
    ensures Sits(h.Written(), 0, MAGIC) && Laid(c, h.Written(), 4, h.size, h.before, h.docType)
  {
    assert Sits(h.Written(), 0, h.Front());
    FrontApart(h.Written(), h);
  }

  lemma HeaderReadsWith(c: Reading, h: Header)
    requires h.Legal(c)
    ensures MatchWith(c, h.Written()) == FormatOf(h.docType.payload)
  {
    HeaderSits(c, h);
    OpeningReads(c, h.Written(), 4, h.size, h.before, h.docType);
  }

  // ----- every acceptance is such a header -----

  lemma ItemIsElement(c: Reading, s: seq<byte>, pos: nat) returns (e: Element)
    requires ReadItem(c, s, pos).Some?
    ensures var item := ReadItem(c, s, pos).value;
            && e.Legal(c) && c.id(e.id) == item.id && e.payload == s[item.body..item.next]
            && Sits(s, pos, e.Written()) && pos + |e.Written()| == item.next
  {
    var item := ReadItem(c, s, pos).value;
    var mid := pos + ReadId(c, s, pos).value.1;
    e := Element(s[pos..mid], s[mid..item.body], s[item.body..item.next]);
    SitsApart(s, pos, e.id, e.size);
    SitsApart(s, pos, e.id + e.size, e.payload);
  }

  lemma PrependSits(s: seq<byte>, pos: nat, e: Element, tail: seq<Element>)
    requires Sits(s, pos, e.Written()) && Sits(s, pos + |e.Written()|, Write(tail))
    ensures Sits(s, pos, Write([e] + tail)) && |Write([e] + tail)| == |e.Written()| + |Write(tail)|
  {
    assert ([e] + tail)[1..] == tail;
    SitsApart(s, pos, e.Written(), Write(tail));
  }

  lemma PrependStands(c: Reading, s: seq<byte>, pos: nat, at: nat, e: Element, tail: seq<Element>, docType: Element)
    requires e.Legal(c) && c.id(e.id) != DOCTYPE_ID && Sits(s, pos, e.Written())
    requires Stand(c, s, pos + |e.Written()|, at, tail, docType)
    ensures Stand(c, s, pos, at, [e] + tail, docType)
  {
    PrependSits(s, pos, e, tail);
  }

  lemma FirstIsElement(c: Reading, s: seq<byte>, pos: nat, end: nat, items: seq<Item>) returns (e: Element)
    requires |items| > 1 && Walk(Items(c, s), pos, end, items)
    ensures e.Legal(c) && c.id(e.id) != DOCTYPE_ID && Sits(s, pos, e.Written())
    ensures Walk(Items(c, s), pos + |e.Written()|, end, items[1..])
  {
    e := ItemIsElement(c, s, pos);
  }

  lemma {:induction false} WalkIsElements(c: Reading, s: seq<byte>, pos: nat, end: nat, items: seq<Item>)
    returns (before: seq<Element>, docType: Element, at: nat)
    requires Walk(Items(c, s), pos, end, items)
    ensures Stand(c, s, pos, at, before, docType) && at < end && PayloadIs(s, items[|items| - 1], docType.payload)
    decreases |items|
  {
    if |items| == 1 {
      docType := ItemIsElement(c, s, pos);
      before, at := [], pos;
    } else {
      var e := FirstIsElement(c, s, pos, end, items);
      var tail;
      tail, docType, at := WalkIsElements(c, s, pos + |e.Written()|, end, items[1..]);
      before := [e] + tail;
      PrependStands(c, s, pos, at, e, tail, docType);
    }
  }

  lemma SizeOfOpening(c: Reading, s: seq<byte>, pos: nat) returns (size: seq<byte>)
    requires Opening(c, s, pos).Some?
    ensures IsVint(c, size) && Sits(s, pos, size)
  {
    size := s[pos..pos + ReadSize(c, s, pos).value.1];
  }

  lemma FollowingComesFrom(c: Reading, s: seq<byte>, pos: nat, size: seq<byte>)
    returns (before: seq<Element>, docType: Element)
    requires IsVint(c, size) && Sits(s, pos, size) && Following(c, s, pos, size).Some?
    ensures Laid(c, s, pos, size, before, docType)
    ensures PayloadIs(s, Following(c, s, pos, size).value, docType.payload)
  {
    var next, end := pos + |size|, Min(pos + |size| + c.size(size), |s|);
    var items := FoundByWalk(Items(c, s), next, end);
    var at;
    before, docType, at := WalkIsElements(c, s, next, end, items);
  }

  lemma OpeningComesFrom(c: Reading, s: seq<byte>, pos: nat)
    returns (size: seq<byte>, before: seq<Element>, docType: Element)
    requires Opening(c, s, pos).Some?
    ensures Laid(c, s, pos, size, before, docType) && PayloadIs(s, Opening(c, s, pos).value, docType.payload)
  {
    size := SizeOfOpening(c, s, pos);
    OpeningFollows(c, s, pos, size);
    before, docType := FollowingComesFrom(c, s, pos, size);
  }

  lemma LaidIsWritten(c: Reading, s: seq<byte>, size: seq<byte>, before: seq<Element>, docType: Element)
    returns (h: Header)
    requires Laid(c, s, 4, size, before, docType) && s[..4] == MAGIC
    ensures h.Legal(c) && h.Written() == s && h.docType == docType
  {
    var front := Header(size, before, docType, []).Front();
    FrontStands(c, s, size, before, docType);
    h := Header(size, before, docType, s[|front|..]);
    SitsIsSlice(s, 0, front);
    assert s == s[0..|front|] + s[|front|..];
  }

  lemma FrontStands(c: Reading, s: seq<byte>, size: seq<byte>, before: seq<Element>, docType: Element)
    requires Laid(c, s, 4, size, before, docType) && s[..4] == MAGIC
    ensures Sits(s, 0, Header(size, before, docType, []).Front())
  {
    FrontApart(s, Header(size, before, docType, []));
  }

  lemma MatchComesFrom(c: Reading, buf: seq<byte>) returns (h: Header)
    requires MatchWith(c, buf).Some?
    ensures h.Legal(c) && h.Written() == buf && FormatOf(h.docType.payload) == MatchWith(c, buf)
  {
    var size, before, docType := OpeningComesFrom(c, buf, 4);
    h := LaidIsWritten(c, buf, size, before, docType);
  }

  lemma LongerHeader(h: Header, more: seq<byte>)
    ensures h.(rest := h.rest + more).Written() == h.Written() + more
  {
    assert h.Front() + (h.rest + more) == h.Front() + h.rest + more;
  }

  lemma StableWith(c: Reading, buf: seq<byte>, more: seq<byte>)
    requires MatchWith(c, buf).Some?
    ensures MatchWith(c, buf + more) == MatchWith(c, buf)
  {
    var h := MatchComesFrom(c, buf);
    LongerHeader(h, more);
    HeaderReadsWith(c, h.(rest := h.rest + more));
  }

  // ----- theorems -----

  /** The DocType each format is known by: "matroska" and "webm". */
  function DocTypeOf(f: Format): seq<byte> {
    match f
    case Mkv => [0x6D, 0x61, 0x74, 0x72, 0x6F, 0x73, 0x6B, 0x61]
    case Webm => [0x77, 0x65, 0x62, 0x6D]
  }

  lemma FormatNamed(payload: seq<byte>, f: Format)
    ensures FormatOf(payload) == Some(f) <==> payload == DocTypeOf(f)
  {
    assert |DocTypeOf(Mkv)| != |DocTypeOf(Webm)|;
  }

  /** An element id is that of the DocType exactly when it is the two bytes 42 82. */
  lemma DocTypeIdBytes(v: seq<byte>)
    requires IsVint(Rfc8794(), v) && |v| <= 4
    ensures IdValue(v) == DOCTYPE_ID <==> v == [0x42, 0x82]
  {
    Markers();
    VintStarts(v[0]);
    IdBytes(v);
  }

  lemma IdBytes(v: seq<byte>)
    requires 1 <= |v| <= 4
    ensures |v| == 1 ==> IdValue(v) == v[0]
    ensures |v| == 2 ==> IdValue(v) == 0x100 * (v[0] as nat) + v[1] as nat
    ensures |v| == 3 ==> IdValue(v) >= 0x1_0000 * (v[0] as nat)
    ensures |v| == 4 ==> IdValue(v) >= 0x100_0000 * (v[0] as nat)
  {
    assert Fold(0, v, 0, 1) == v[0];
    if |v| >= 2 { assert Fold(0, v, 0, 2) == 0x100 * (v[0] as nat) + v[1] as nat; }
    if |v| >= 3 { assert Fold(0, v, 0, 3) >= 0x1_0000 * (v[0] as nat); }
  }

  /** A legal header, byte by byte. */
  lemma HeaderBytes(h: Header)
    requires h.Legal(Rfc8794())
    ensures h.docType.id == [0x42, 0x82]
    ensures Sits(h.Written(), 0, [0x1A, 0x45, 0xDF, 0xA3]) && Sits(h.Written(), 4, h.size)
    ensures Sits(h.Written(), 4 + |h.size|, Write(h.before))
    ensures Sits(h.Written(), 4 + |h.size| + |Write(h.before)|, h.docType.Written())
  {
    DocTypeIdBytes(h.docType.id);
    assert Sits(h.Written(), 0, h.Front());
    FrontApart(h.Written(), h);
  }

  /** Round trip: reading any legal header gives mkv for the DocType "matroska", webm for "webm", and
      nothing for any other. */
  lemma HeaderReads(h: Header)
    requires h.Legal(Rfc8794())
    ensures h.docType.payload == [0x6D, 0x61, 0x74, 0x72, 0x6F, 0x73, 0x6B, 0x61] ==> Match(h.Written()) == Some(Mkv)
    ensures h.docType.payload == [0x77, 0x65, 0x62, 0x6D] ==> Match(h.Written()) == Some(Webm)
    ensures (forall f: Format :: h.docType.payload != DocTypeOf(f)) ==> Match(h.Written()) == None
  {
    HeaderReadsWith(Rfc8794(), h);
    FormatNamed(h.docType.payload, Mkv);
    FormatNamed(h.docType.payload, Webm);
    assert h.docType.payload == DocTypeOf(Mkv) || h.docType.payload == DocTypeOf(Webm) || Match(h.Written()) == None;
  }

  /** `buf` is the legal header `h`, followed by anything, and its DocType is `name`. */
  ghost predicate IsHeader(buf: seq<byte>, h: Header, name: seq<byte>) {
    h.Legal(Rfc8794()) && h.Written() == buf && h.docType.payload == name
  }

  /** Exactness: a prefix is recognised as `f` if and only if it is a legal header, followed by
      anything, whose DocType is the one `f` is known by. */
  lemma RecognisedIffHeader(buf: seq<byte>, f: Format)
    ensures Match(buf) == Some(f) <==>
              exists h: Header :: IsHeader(buf, h, DocTypeOf(f))
  {
    var c := Rfc8794();
    if Match(buf) == Some(f) {
      var h := MatchComesFrom(c, buf);
      FormatNamed(h.docType.payload, f);
      assert IsHeader(buf, h, DocTypeOf(f));
    }
    forall h: Header | IsHeader(buf, h, DocTypeOf(f))
      ensures Match(buf) == Some(f)
    {
      HeaderReadsWith(c, h);
      FormatNamed(h.docType.payload, f);
    }
  }

  /** The bounded peek refines the unbounded parser: a recognised prefix is recognised alike
      however the file continues. */
  lemma RecognitionStable(buf: seq<byte>, more: seq<byte>)
    requires Match(buf).Some?
    ensures Match(buf + more) == Match(buf)
  {
    StableWith(Rfc8794(), buf, more);
  }
}
