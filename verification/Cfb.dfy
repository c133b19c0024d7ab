/** Classification of OLE compound files by their directory entry names
    (internal/convert/cfb.go), against [MS-CFB] sections 2.2 to 2.6. */
module Cfb {
  import opened Wrappers
  import opened Bytes

  const HEADER_SIZE := 512
  const DIFAT_SLOTS := 109
  const DIFAT_OFFSET := 76
  const ENTRY_SIZE := 128
  const NAME_FIELD := 64
  const MAX_DIR_SECTORS := 4096
  const END_OF_CHAIN := 0xFFFF_FFFE
  const SENTINEL := 0xFFFF_FFFA
  const MAGIC: seq<byte> := [0xD0, 0xCF, 0x11, 0xE0, 0xA1, 0xB1, 0x1A, 0xE1]

  datatype Class = Unknown | Encrypted | Legacy

  type Name = seq<nat>

  /** Sectors are 512 or 4096 bytes. */
  type SectorSize = n: nat | n == 512 || n == 4096 witness 512

  /** A file to read at, and the size it is declared to have. */
  datatype File = File(bytes: seq<byte>, size: nat, sector: SectorSize) {
    function Offset(sect: nat): nat { (sect + 1) * sector }

    /** cfbSectorInBounds, and the full-length read that follows it. */
    predicate Readable(sect: nat) {
      sect < SENTINEL && Offset(sect) + sector <= size && Offset(sect) + sector <= |bytes|
    }
  }

  method ReadWord(s: seq<byte>, off: nat, n: nat) returns (v: nat)
    requires off + n <= |s|
    ensures v == Little(s, off, off + n)
  {
    v := 0;
    var i := n;
    while i > 0
      invariant 0 <= i <= n
      invariant v == Little(s, off + i, off + n)
    {
      i := i - 1;
      v := s[off + i] + 256 * v;
    }
  }

  // ----- the file allocation table -----

  /** The sector the i-th header DIFAT slot names. */
  function Slot(f: File, i: nat): nat
    requires |f.bytes| >= HEADER_SIZE && i < DIFAT_SLOTS
  {
    Little(f.bytes, DIFAT_OFFSET + 4 * i, DIFAT_OFFSET + 4 * i + 4)
  }

  /** Table entries per sector, four bytes each. */
  function PerSector(f: File): nat { if f.sector == 512 then 128 else 1024 }

  /** The slot that describes a sector, and its entry there: quotient and remainder by PerSector. */
  function SlotOf(f: File, sect: nat): nat { if f.sector == 512 then sect / 128 else sect / 1024 }
  function IndexOf(f: File, sect: nat): nat { if f.sector == 512 then sect % 128 else sect % 1024 }

  /** Sector `sect` is described by the table: its slot is in use. */
  predicate Covered(f: File, sect: nat, slots: nat)
    requires |f.bytes| >= HEADER_SIZE && slots <= DIFAT_SLOTS
  {
    SlotOf(f, sect) < slots && Slot(f, SlotOf(f, sect)) < SENTINEL
  }

  /** Where the table holds the successor of `sect`: entry sect%n of the sector in slot sect/n. */
  function EntryOffset(f: File, sect: nat): nat
    requires |f.bytes| >= HEADER_SIZE && SlotOf(f, sect) < DIFAT_SLOTS
  {
    f.Offset(Slot(f, SlotOf(f, sect))) + 4 * (IndexOf(f, sect))
  }

  ghost predicate SlotsReadable(f: File, slots: nat)
    requires |f.bytes| >= HEADER_SIZE && slots <= DIFAT_SLOTS
  {
    forall i :: 0 <= i < slots && Slot(f, i) < SENTINEL ==> f.Readable(Slot(f, i))
  }

  lemma EntryInside(f: File, sect: nat)
    requires |f.bytes| >= HEADER_SIZE && Covered(f, sect, DIFAT_SLOTS) && f.Readable(Slot(f, SlotOf(f, sect)))
    ensures EntryOffset(f, sect) + 4 <= |f.bytes|
  {
    assert IndexOf(f, sect) < PerSector(f);
  }

  /** The sectors slot `i` describes are those whose quotient is `i`. */
  lemma SlotRange(f: File, i: nat, sect: nat)
    ensures var n := PerSector(f);
            && SlotOf(f, sect) == sect / n && IndexOf(f, sect) == sect % n
            && (i * n <= sect < i * n + n <==> SlotOf(f, sect) == i)
            && (SlotOf(f, sect) == i ==> IndexOf(f, sect) == sect - i * n)
  {
  }

  /** The table restricted to the first `slots` slots: direct addressing by quotient and remainder. */
  ghost predicate IsFat(f: File, fat: map<nat, nat>, slots: nat)
    requires |f.bytes| >= HEADER_SIZE && slots <= DIFAT_SLOTS
  {
    forall sect: nat :: (sect in fat <==> Covered(f, sect, slots)) && (sect in fat ==> IsEntry(f, sect, fat[sect]))
  }

  /** `next` is the successor the table holds for `sect`. */
  predicate IsEntry(f: File, sect: nat, next: nat)
    requires |f.bytes| >= HEADER_SIZE
  {
    && SlotOf(f, sect) < DIFAT_SLOTS && EntryOffset(f, sect) + 4 <= |f.bytes|
    && next == Little(f.bytes, EntryOffset(f, sect), EntryOffset(f, sect) + 4)
  }

  /** The k-th 32-bit word from `off`. */
  function Word(s: seq<byte>, off: nat, k: nat): nat
    requires off + 4 * k + 4 <= |s|
  {
    Little(s, off + 4 * k, off + 4 * k + 4)
  }

  /** Adds the entries of one FAT sector, the inner loop of buildCFBFAT. */
  method AddEntries(s: seq<byte>, off: nat, n: nat, base: nat, fat: map<nat, nat>) returns (fat': map<nat, nat>)
    requires off + 4 * n <= |s|
    ensures forall sect :: sect in fat' <==> sect in fat || base <= sect < base + n
    ensures forall sect :: sect in fat' ==>
              fat'[sect] == if base <= sect < base + n then Word(s, off, sect - base) else fat[sect]
  {
    fat' := fat;
    var j := 0;
    while j < n
      invariant 0 <= j <= n
      invariant forall sect :: sect in fat' <==> sect in fat || base <= sect < base + j
      invariant forall sect :: sect in fat' ==>
                  fat'[sect] == if base <= sect < base + j then Word(s, off, sect - base) else fat[sect]
    {
      var next := ReadWord(s, off + 4 * j, 4);
      fat' := fat'[base + j := next];
      j := j + 1;
    }
  }

  /** An entry of slot `i` stands where the table's addressing says. */
  lemma SlotEntry(f: File, i: nat, sect: nat)
    requires |f.bytes| >= HEADER_SIZE && i < DIFAT_SLOTS && Slot(f, i) < SENTINEL && f.Readable(Slot(f, i))
    requires SlotOf(f, sect) == i
    ensures var off, k := f.Offset(Slot(f, i)), sect - i * PerSector(f);
            k >= 0 && off + 4 * k + 4 <= |f.bytes| && IsEntry(f, sect, Word(f.bytes, off, k))
  {
    SlotRange(f, i, sect);
    EntryInside(f, sect);
  }

  lemma SlotAdded(f: File, fat: map<nat, nat>, i: nat, fat': map<nat, nat>)
    requires |f.bytes| >= HEADER_SIZE && i < DIFAT_SLOTS && IsFat(f, fat, i)
    requires Slot(f, i) < SENTINEL && f.Readable(Slot(f, i))
    requires var n, off := PerSector(f), f.Offset(Slot(f, i));
             && (forall sect :: sect in fat' <==> sect in fat || i * n <= sect < i * n + n)
             && (forall sect :: sect in fat' ==>
                   fat'[sect] == if i * n <= sect < i * n + n then Word(f.bytes, off, sect - i * n) else fat[sect])
    ensures IsFat(f, fat', i + 1)
  {
    forall sect: nat
      ensures (sect in fat' <==> Covered(f, sect, i + 1)) && (sect in fat' ==> IsEntry(f, sect, fat'[sect]))
    {
      SlotRange(f, i, sect);
      if SlotOf(f, sect) == i { SlotEntry(f, i, sect); }
    }
  }

  method BuildFat(f: File) returns (fat: Option<map<nat, nat>>)
    requires |f.bytes| >= HEADER_SIZE
    ensures fat.Some? <==> SlotsReadable(f, DIFAT_SLOTS)
    ensures fat.Some? ==> IsFat(f, fat.value, DIFAT_SLOTS)
  {
    var m: map<nat, nat> := map[];
    var i := 0;
    while i < DIFAT_SLOTS
      invariant 0 <= i <= DIFAT_SLOTS
      invariant SlotsReadable(f, i) && IsFat(f, m, i)
    {
      var slot := ReadWord(f.bytes, DIFAT_OFFSET + 4 * i, 4);
      assert slot == Slot(f, i);
      if slot < SENTINEL {
        if !f.Readable(slot) {
          return None;
        }
        var m' := AddEntries(f.bytes, f.Offset(slot), PerSector(f), i * PerSector(f), m);
        SlotAdded(f, m, i, m');
        m := m';
      }
      i := i + 1;
    }
    return Some(m);
  }

  // ----- directory names -----

  function Units(s: seq<byte>, off: nat, n: nat): seq<nat>
    requires off + 2 * n <= |s|
  {
    seq(n, k requires 0 <= k < n => Little(s, off + 2 * k, off + 2 * k + 2))
  }

  predicate High(u: nat) { 0xD800 <= u < 0xDC00 }
  predicate Low(u: nat) { 0xDC00 <= u < 0xE000 }

  /** utf16.Decode: pairs of surrogates combine, lone ones become the replacement character. */
  function Decode(units: seq<nat>): seq<nat> {
    if units == [] then []
    else if |units| >= 2 && High(units[0]) && Low(units[1]) then
      [(units[0] - 0xD800) * 0x400 + (units[1] - 0xDC00) + 0x10000] + Decode(units[2..])
    else if High(units[0]) || Low(units[0]) then [0xFFFD] + Decode(units[1..])
    else [units[0]] + Decode(units[1..])
  }

  function Stripped(units: seq<nat>): seq<nat> {
    if units != [] && units[|units| - 1] == 0 then units[..|units| - 1] else units
  }

  /** The name in a 128-byte directory entry: none if it is unallocated or malformed. */
  function EntryName(s: seq<byte>, off: nat): Option<Name>
    requires off + ENTRY_SIZE <= |s|
  {
    var len := Little(s, off + 64, off + 66);
    if s[off + 66] == 0 || len < 2 || len > NAME_FIELD || len % 2 != 0 then None
    else Some(Decode(Stripped(Units(s, off, len / 2))))
  }

  /** The names of the first `n` entries from `off`. */
  function EntryNames(s: seq<byte>, off: nat, n: nat): seq<Name>
    requires off + ENTRY_SIZE * n <= |s|
  {
    if n == 0 then []
    else
      var name := EntryName(s, off + ENTRY_SIZE * (n - 1));
      EntryNames(s, off, n - 1) + (if name.Some? then [name.value] else [])
  }

  /** Directory entries per sector, 128 bytes each. */
  function Entries(f: File): nat { if f.sector == 512 then 4 else 32 }

  function SectorNames(f: File, sect: nat): seq<Name>
    requires f.Readable(sect)
  {
    EntryNames(f.bytes, f.Offset(sect), Entries(f))
  }

  /** The entries of a readable sector lie inside the file. */
  lemma EntriesInside(f: File, sect: nat, e: nat)
    requires f.Readable(sect) && e <= Entries(f)
    ensures f.Offset(sect) + ENTRY_SIZE * e <= |f.bytes|
  {
    assert ENTRY_SIZE * Entries(f) == f.sector;
  }

  /** One more entry, and the name it adds if any. */
  lemma NextEntry(s: seq<byte>, off: nat, e: nat)
    requires off + ENTRY_SIZE * (e + 1) <= |s|
    ensures var name := EntryName(s, off + ENTRY_SIZE * e);
            EntryNames(s, off, e + 1) == EntryNames(s, off, e) + (if name.Some? then [name.value] else [])
  {
  }

  method ReadNames(f: File, sect: nat) returns (names: seq<Name>)
    requires f.Readable(sect)
    ensures names == SectorNames(f, sect)
  {
    var off, n := f.Offset(sect), Entries(f);
    names := [];
    var e := 0;
    while e < n
      invariant 0 <= e <= n && off + ENTRY_SIZE * e <= |f.bytes|
      invariant names == EntryNames(f.bytes, off, e)
    {
      EntriesInside(f, sect, e + 1);
      NextEntry(f.bytes, off, e);
      var entry := off + ENTRY_SIZE * e;
      var name := EntryName(f.bytes, entry);
      if name.Some? {
        names := names + [name.value];
      }
      e := e + 1;
    }
  }

  // ----- the directory chain -----

  /** `p` follows the table from `start`: every step is read off it. */
  predicate Follows(fat: map<nat, nat>, start: nat, p: seq<nat>) {
    && p != [] && p[0] == start
    && (forall i :: 0 <= i < |p| - 1 ==> p[i] in fat && fat[p[i]] == p[i + 1])
  }

  /** The directory chain: distinct readable sectors, at most 4096, then a sentinel. */
  predicate IsChain(f: File, fat: map<nat, nat>, start: nat, p: seq<nat>) {
    && Follows(fat, start, p)
    && |p| <= MAX_DIR_SECTORS + 1
    && p[|p| - 1] >= SENTINEL
    && (forall i :: 0 <= i < |p| - 1 ==> f.Readable(p[i]))
    && Distinct(p[..|p| - 1])
  }

  function ChainNames(f: File, p: seq<nat>): seq<Name>
    requires forall i :: 0 <= i < |p| ==> f.Readable(p[i])
  {
    if p == [] then [] else ChainNames(f, p[..|p| - 1]) + SectorNames(f, p[|p| - 1])
  }

  /** There is one way to follow the table. */
  lemma {:induction false} OnePath(f: File, fat: map<nat, nat>, start: nat, w: seq<nat>, p: seq<nat>)
    requires Follows(fat, start, w) && IsChain(f, fat, start, p)
    requires forall i :: 0 <= i < |w| - 1 ==> w[i] < SENTINEL
    ensures |w| <= |p| && w == p[..|w|] && w[|w| - 1] == p[|w| - 1]
    ensures forall i :: 0 <= i < |w| ==> w[i] == p[i]
    decreases |w|
  {
    if |w| > 1 {
      var w' := w[..|w| - 1];
      OnePath(f, fat, start, w', p);
      assert w[|w| - 2] == p[|w| - 2] < SENTINEL;
    }
  }

  /** How far a walk has come: the sectors read, all distinct, the names in them, and the next one. */
  ghost predicate Walked(f: File, fat: map<nat, nat>, start: nat, walked: seq<nat>, sector: nat, visited: set<nat>,
                         found: seq<Name>) {
    && Follows(fat, start, walked + [sector])
    && (forall i :: 0 <= i < |walked| ==> f.Readable(walked[i]))
    && Distinct(walked) && (forall x :: x in visited <==> x in walked)
    && found == ChainNames(f, walked)
  }

  lemma FollowOn(fat: map<nat, nat>, start: nat, walked: seq<nat>, sector: nat)
    requires Follows(fat, start, walked + [sector]) && sector in fat
    ensures Follows(fat, start, walked + [sector] + [fat[sector]])
  {
  }

  lemma NamesOn(f: File, walked: seq<nat>, sector: nat)
    requires f.Readable(sector) && forall i :: 0 <= i < |walked| ==> f.Readable(walked[i])
    ensures ChainNames(f, walked + [sector]) == ChainNames(f, walked) + SectorNames(f, sector)
  {
    assert (walked + [sector])[..|walked|] == walked;
  }

  lemma DistinctOn(walked: seq<nat>, sector: nat)
    requires Distinct(walked) && sector !in walked
    ensures Distinct(walked + [sector])
  {
  }

  lemma WalkedOn(f: File, fat: map<nat, nat>, start: nat, walked: seq<nat>, sector: nat, visited: set<nat>,
                 found: seq<Name>)
    requires Walked(f, fat, start, walked, sector, visited, found)
    requires sector !in visited && f.Readable(sector) && sector in fat
    ensures Walked(f, fat, start, walked + [sector], fat[sector], visited + {sector}, found + SectorNames(f, sector))
  {
    FollowOn(fat, start, walked, sector);
    NamesOn(f, walked, sector);
    DistinctOn(walked, sector);
  }

  lemma WalkedIsChain(f: File, fat: map<nat, nat>, start: nat, walked: seq<nat>, sector: nat, visited: set<nat>,
                      found: seq<Name>)
    requires Walked(f, fat, start, walked, sector, visited, found) && |walked| <= MAX_DIR_SECTORS && sector >= SENTINEL
    ensures var chain := walked + [sector];
            IsChain(f, fat, start, chain) && found == ChainNames(f, chain[..|chain| - 1])
  {
    assert (walked + [sector])[..|walked|] == walked;
  }

  /** cfbWalkDirectory: succeeds exactly when a directory chain exists, with its names in order. */
  method WalkDirectory(f: File, start: nat, fat: map<nat, nat>)
    returns (names: Option<seq<Name>>, sectorsRead: nat, ghost chain: seq<nat>)
    ensures sectorsRead <= MAX_DIR_SECTORS
    ensures names.Some? ==> IsChain(f, fat, start, chain) && names.value == ChainNames(f, chain[..|chain| - 1])
    ensures names.None? ==> forall p :: !IsChain(f, fat, start, p)
  {
    var visited: set<nat>, found: seq<Name>, sector: nat, count := {}, [], start, 0;
    ghost var walked: seq<nat> := [];
    sectorsRead, chain := 0, [];
    while sector < SENTINEL
      invariant sectorsRead == count == |walked| <= MAX_DIR_SECTORS
      invariant Walked(f, fat, start, walked, sector, visited, found)
      decreases MAX_DIR_SECTORS - count
    {
      if sector in visited || count >= MAX_DIR_SECTORS || !f.Readable(sector) {
        DeadEnd(f, fat, start, walked, sector);
        return None, sectorsRead, chain;
      }
      count, sectorsRead := count + 1, sectorsRead + 1;
      var more := ReadNames(f, sector);
      if sector !in fat {
        DeadEnd(f, fat, start, walked, sector);
        return None, sectorsRead, chain;
      }
      WalkedOn(f, fat, start, walked, sector, visited, found);
      visited := visited + {sector};
      found := found + more;
      walked := walked + [sector];
      sector := fat[sector];
    }
    WalkedIsChain(f, fat, start, walked, sector, visited, found);
    chain := walked + [sector];
    return Some(found), sectorsRead, chain;
  }

  /** A walk that cannot go on shows that there is no chain. */
  lemma DeadEnd(f: File, fat: map<nat, nat>, start: nat, walked: seq<nat>, sector: nat)
    requires Follows(fat, start, walked + [sector]) && forall i :: 0 <= i < |walked| ==> f.Readable(walked[i])
    requires sector < SENTINEL
    requires sector in walked || |walked| >= MAX_DIR_SECTORS || !f.Readable(sector) || sector !in fat
    ensures forall p :: !IsChain(f, fat, start, p)
  {
    forall p ensures !IsChain(f, fat, start, p) {
      if IsChain(f, fat, start, p) {
        var k, w := |walked|, walked + [sector];
        if sector in walked {
          var i :| 0 <= i < k && walked[i] == sector;
          assert w[i] == sector;
        }
        OnePath(f, fat, start, w, p);
      }
    }
  }

  // ----- classification -----

  const ENCRYPTION_INFO: Name := [0x45, 0x6E, 0x63, 0x72, 0x79, 0x70, 0x74, 0x69, 0x6F, 0x6E, 0x49, 0x6E, 0x66, 0x6F]
  const ENCRYPTED_PACKAGE: Name := [0x45, 0x6E, 0x63, 0x72, 0x79, 0x70, 0x74, 0x65, 0x64, 0x50, 0x61, 0x63, 0x6B,
                                    0x61, 0x67, 0x65]
  const WORD_DOCUMENT: Name := [0x57, 0x6F, 0x72, 0x64, 0x44, 0x6F, 0x63, 0x75, 0x6D, 0x65, 0x6E, 0x74]
  const WORKBOOK: Name := [0x57, 0x6F, 0x72, 0x6B, 0x62, 0x6F, 0x6F, 0x6B]
  const BOOK: Name := [0x42, 0x6F, 0x6F, 0x6B]
  const POWERPOINT: Name := [0x50, 0x6F, 0x77, 0x65, 0x72, 0x50, 0x6F, 0x69, 0x6E, 0x74, 0x20, 0x44, 0x6F, 0x63, 0x75,
                             0x6D, 0x65, 0x6E, 0x74]

  predicate MarksEncrypted(n: Name) { n == ENCRYPTION_INFO || n == ENCRYPTED_PACKAGE }
  predicate MarksLegacy(n: Name) { n == WORD_DOCUMENT || n == WORKBOOK || n == BOOK || n == POWERPOINT }

  method ClassifyNames(names: seq<Name>) returns (c: Class)
    ensures c == Encrypted <==> exists n <- names :: MarksEncrypted(n)
    ensures c == Legacy <==> (exists n <- names :: MarksLegacy(n)) && !exists n <- names :: MarksEncrypted(n)
  {
    var encrypted, legacy := false, false;
    var i := 0;
    while i < |names|
      invariant 0 <= i <= |names|
      invariant encrypted <==> exists k :: 0 <= k < i && MarksEncrypted(names[k])
      invariant legacy <==> exists k :: 0 <= k < i && MarksLegacy(names[k])
    {
      if MarksEncrypted(names[i]) {
        encrypted := true;
      } else if MarksLegacy(names[i]) {
        legacy := true;
      }
      i := i + 1;
    }
    return if encrypted then Encrypted else if legacy then Legacy else Unknown;
  }

  predicate HeaderOk(bytes: seq<byte>, size: nat) {
    && size >= HEADER_SIZE && |bytes| >= HEADER_SIZE && bytes[..8] == MAGIC
    && (Little(bytes, 30, 32) == 9 || Little(bytes, 30, 32) == 12)
    && Little(bytes, 68, 72) == END_OF_CHAIN
  }

  function Opened(bytes: seq<byte>, size: nat): File
    requires HeaderOk(bytes, size)
  {
    File(bytes, size, if Little(bytes, 30, 32) == 9 then 512 else 4096)
  }

  /** The names of the directory of a well-formed compound file: its header is sound, its table
      is readable and its directory is a chain. */
  ghost predicate DirectoryIs(bytes: seq<byte>, size: nat, fat: map<nat, nat>, chain: seq<nat>, names: seq<Name>) {
    && HeaderOk(bytes, size)
    && var f := Opened(bytes, size);
       && SlotsReadable(f, DIFAT_SLOTS) && IsFat(f, fat, DIFAT_SLOTS)
       && IsChain(f, fat, Little(bytes, 48, 52), chain)
       && names == ChainNames(f, chain[..|chain| - 1])
  }

  lemma OneFat(f: File, fat: map<nat, nat>, fat': map<nat, nat>)
    requires |f.bytes| >= HEADER_SIZE && IsFat(f, fat, DIFAT_SLOTS) && IsFat(f, fat', DIFAT_SLOTS)
    ensures fat == fat'
  {
    assert forall sect: nat :: sect in fat <==> sect in fat';
  }

  lemma OneDirectory(bytes: seq<byte>, size: nat, fat: map<nat, nat>, chain: seq<nat>, names: seq<Name>,
                     fat': map<nat, nat>, chain': seq<nat>, names': seq<Name>)
    requires DirectoryIs(bytes, size, fat, chain, names) && DirectoryIs(bytes, size, fat', chain', names')
    ensures fat == fat' && chain == chain' && names == names'
  {
    var f := Opened(bytes, size);
    OneFat(f, fat, fat');
    OnePath(f, fat, Little(bytes, 48, 52), chain, chain');
    OnePath(f, fat, Little(bytes, 48, 52), chain', chain);
  }

  method OpenHeader(bytes: seq<byte>, size: nat) returns (header: Option<(File, nat)>)
    ensures header.Some? <==> HeaderOk(bytes, size)
    ensures header.Some? ==> header.value == (Opened(bytes, size), Little(bytes, 48, 52))
  {
    if size < HEADER_SIZE || |bytes| < HEADER_SIZE || bytes[..8] != MAGIC {
      return None;
    }
    var shift := ReadWord(bytes, 30, 2);
    if shift != 9 && shift != 12 {
      return None;
    }
    var firstDir := ReadWord(bytes, 48, 4);
    var firstDifat := ReadWord(bytes, 68, 4);
    if firstDifat != END_OF_CHAIN {
      return None;
    }
    return Some((File(bytes, size, if shift == 9 then 512 else 4096), firstDir));
  }

  /** The part of ClassifyCFB that reads: every read is inside the file, and it answers exactly
      when the file is a well-formed compound file. */
  method ReadDirectory(bytes: seq<byte>, size: nat)
    returns (names: Option<seq<Name>>, ghost fat: map<nat, nat>, ghost chain: seq<nat>)
    ensures names.Some? ==> DirectoryIs(bytes, size, fat, chain, names.value)
    ensures names.None? ==> forall m, p, ns :: !DirectoryIs(bytes, size, m, p, ns)
  {
    names, fat, chain := None, map[], [];
    var header := OpenHeader(bytes, size);
    if header.None? {
      return;
    }
    var (f, firstDir) := header.value;
    var table := BuildFat(f);
    if table.None? {
      return;
    }
    fat := table.value;
    var sectorsRead;
    names, sectorsRead, chain := WalkDirectory(f, firstDir, table.value);
    if names.None? {
      forall m, p, ns ensures !DirectoryIs(bytes, size, m, p, ns) {
        if DirectoryIs(bytes, size, m, p, ns) { OneFat(f, m, fat); }
      }
    }
  }

  ghost predicate IsEncrypted(bytes: seq<byte>, size: nat) {
    exists fat, chain, names :: DirectoryIs(bytes, size, fat, chain, names) && exists n <- names :: MarksEncrypted(n)
  }

  ghost predicate IsLegacy(bytes: seq<byte>, size: nat) {
    exists fat, chain, names ::
      && DirectoryIs(bytes, size, fat, chain, names)
      && (exists n <- names :: MarksLegacy(n)) && !exists n <- names :: MarksEncrypted(n)
  }

  /** What a compound file is: encrypted when the directory of a well-formed file holds an encryption
      marker, legacy when it holds a legacy marker and no encryption marker. */
  ghost function ClassOf(bytes: seq<byte>, size: nat): Class {
    if IsEncrypted(bytes, size) then Encrypted else if IsLegacy(bytes, size) then Legacy else Unknown
  }

  /** ClassifyCFB. */
  method Classify(bytes: seq<byte>, size: nat) returns (c: Class)
    ensures c == ClassOf(bytes, size)
    ensures !(IsEncrypted(bytes, size) && IsLegacy(bytes, size))
  {
    var names, fat, chain := ReadDirectory(bytes, size);
    if names.None? {
      return Unknown;
    }
    forall m, p, ns | DirectoryIs(bytes, size, m, p, ns) ensures ns == names.value {
      OneDirectory(bytes, size, m, p, ns, fat, chain, names.value);
    }
    c := ClassifyNames(names.value);
  }

  predicate Ascii(n: Name) { forall i :: 0 <= i < |n| ==> n[i] < 0x80 }

  /** A decoded name is a given ASCII name exactly when its UTF-16 units are that name's: no
      surrogates and no replacement can imitate a marker. */
  lemma {:induction false} AsciiNamesAreTheirUnits(units: seq<nat>, name: Name)
    requires Ascii(name)
    ensures Decode(units) == name <==> units == name
    decreases |units|
  {
    if units != [] && name != [] {
      AsciiNamesAreTheirUnits(units[1..], name[1..]);
      assert units == [units[0]] + units[1..] && name == [name[0]] + name[1..];
      assert Decode(units) == [Decode(units)[0]] + Decode(units)[1..];
    }
  }

  // ----- names as written -----

  predicate Scalar(c: nat) { c < 0x11_0000 && !(0xD800 <= c < 0xE000) }

  /** UTF-16: characters beyond the basic plane take two surrogates. */
  function Encode(n: Name): seq<nat> {
    if n == [] then []
    else if n[0] < 0x1_0000 then [n[0]] + Encode(n[1..])
    else
      var c := n[0] - 0x1_0000;
      [0xD800 + c / 0x400, 0xDC00 + c % 0x400] + Encode(n[1..])
  }

  /** Round trip: every Unicode name survives its encoding. */
  lemma {:induction false} DecodeEncode(n: Name)
    requires forall c <- n :: Scalar(c)
    ensures Decode(Encode(n)) == n
    decreases |n|
  {
    if n != [] {
      assert Scalar(n[0]) by { assert n[0] in n; }
      DecodeEncode(n[1..]);
      assert n == [n[0]] + n[1..];
      var tail := Encode(n[1..]);
      if n[0] < 0x1_0000 {
        assert ([n[0]] + tail)[1..] == tail;
      } else {
        var c := n[0] - 0x1_0000;
        assert c / 0x400 < 0x400;
        assert ([0xD800 + c / 0x400, 0xDC00 + c % 0x400] + tail)[2..] == tail;
      }
    }
  }

  /** A 16-bit field. */
  function Half(s: seq<byte>, k: nat): nat
    requires k + 2 <= |s|
  {
    s[k] as nat + 256 * (s[k + 1] as nat)
  }

  lemma HalfIsLittle(s: seq<byte>, k: nat)
    requires k + 2 <= |s|
    ensures Little(s, k, k + 2) == Half(s, k)
  {
    assert Little(s, k + 2, k + 2) == 0;
    assert Little(s, k + 1, k + 2) == s[k + 1];
  }

  /** The 128 bytes at `off` are an allocated entry whose name is `units`, with or without the
      terminating zero that the length field counts. */
  ghost predicate Spells(s: seq<byte>, off: nat, units: seq<nat>, terminated: bool) {
    && off + 128 <= |s| && s[off + 66] != 0
    && var n := |units| + if terminated then 1 else 0;
       && 1 <= n <= 32 && Half(s, off + 64) == 2 * n
       && (forall k :: 0 <= k < |units| ==> Half(s, off + 2 * k) == units[k])
       && (if terminated then Half(s, off + 2 * |units|) == 0 else units[|units| - 1] != 0)
  }

  lemma UnitsAre(s: seq<byte>, off: nat, n: nat)
    requires off + 2 * n <= |s|
    ensures forall k :: 0 <= k < n ==> Units(s, off, n)[k] == Half(s, off + 2 * k)
  {
    forall k | 0 <= k < n ensures Units(s, off, n)[k] == Half(s, off + 2 * k) {
      HalfIsLittle(s, off + 2 * k);
    }
  }

  lemma SpelledUnits(s: seq<byte>, off: nat, units: seq<nat>, terminated: bool)
    requires Spells(s, off, units, terminated)
    ensures Stripped(Units(s, off, Half(s, off + 64) / 2)) == units
  {
    var n := |units| + if terminated then 1 else 0;
    UnitsAre(s, off, n);
    assert Units(s, off, n) == if terminated then units + [0] else units;
  }

  /** An entry spelling a name yields the name: its terminating zero, and nothing else, is dropped. */
  lemma EntryReads(s: seq<byte>, off: nat, units: seq<nat>, terminated: bool)
    requires Spells(s, off, units, terminated)
    ensures EntryName(s, off) == Some(Decode(units))
  {
    HalfIsLittle(s, off + 64);
    SpelledUnits(s, off, units, terminated);
  }

  /** Round trip: the entry written for a Unicode name of at most 31 units yields exactly that name. */
  lemma NameReads(s: seq<byte>, off: nat, name: Name)
    requires (forall c <- name :: Scalar(c)) && Spells(s, off, Encode(name), true)
    ensures EntryName(s, off) == Some(name)
  {
    EntryReads(s, off, Encode(name), true);
    DecodeEncode(name);
  }

  /** An unallocated entry, or one whose length is odd, below 2 or above 64, yields none; any other
      spells something. */
  lemma EntryExact(s: seq<byte>, off: nat)
    requires off + 128 <= |s|
    ensures var len := Half(s, off + 64);
            EntryName(s, off).None? <==> s[off + 66] == 0 || len < 2 || len > 64 || len % 2 == 1
  {
    HalfIsLittle(s, off + 64);
  }

  lemma EntryShape(s: seq<byte>, off: nat) returns (n: nat)
    requires off + 128 <= |s| && EntryName(s, off).Some?
    ensures s[off + 66] != 0 && 1 <= n <= 32 && Half(s, off + 64) == 2 * n
    ensures EntryName(s, off) == Some(Decode(Stripped(Units(s, off, n))))
  {
    HalfIsLittle(s, off + 64);
    n := Half(s, off + 64) / 2;
  }

  lemma EntryComesFrom(s: seq<byte>, off: nat) returns (units: seq<nat>, terminated: bool)
    requires off + 128 <= |s| && EntryName(s, off).Some?
    ensures Spells(s, off, units, terminated) && EntryName(s, off) == Some(Decode(units))
  {
    var n := EntryShape(s, off);
    UnitsAre(s, off, n);
    var all := Units(s, off, n);
    terminated := all[n - 1] == 0;
    if terminated {
      units := all[..n - 1];
    } else {
      units := all;
    }
    SpellsUnits(s, off, n, units, terminated);
  }

  lemma SpellsUnits(s: seq<byte>, off: nat, n: nat, units: seq<nat>, terminated: bool)
    requires off + 128 <= |s| && s[off + 66] != 0 && 1 <= n <= 32 && Half(s, off + 64) == 2 * n
    requires |units| == n - (if terminated then 1 else 0)
    requires forall k :: 0 <= k < |units| ==> units[k] == Half(s, off + 2 * k)
    requires terminated <==> Half(s, off + 2 * (n - 1)) == 0
    ensures Spells(s, off, units, terminated)
  {
  }

  /** The entry's name is this ASCII text, terminated or not. */
  ghost predicate Marked(s: seq<byte>, off: nat, text: Name) {
    Spells(s, off, text, true) || Spells(s, off, text, false)
  }

  lemma MarkedIffNamed(s: seq<byte>, off: nat, text: Name)
    requires off + 128 <= |s| && Ascii(text)
    ensures Marked(s, off, text) <==> EntryName(s, off) == Some(text)
  {
    AsciiNamesAreTheirUnits(text, text);
    if Spells(s, off, text, true) { EntryReads(s, off, text, true); }
    if Spells(s, off, text, false) { EntryReads(s, off, text, false); }
    if EntryName(s, off) == Some(text) {
      var units, terminated := EntryComesFrom(s, off);
      AsciiNamesAreTheirUnits(units, text);
    }
  }

  // ----- the names of a chain -----

  ghost predicate NameAt(s: seq<byte>, off: nat, e: nat, name: Name) {
    off + 128 * e + 128 <= |s| && EntryName(s, off + 128 * e) == Some(name)
  }

  lemma {:induction false} ListedAt(s: seq<byte>, off: nat, n: nat, name: Name) returns (e: nat)
    requires off + ENTRY_SIZE * n <= |s| && name in EntryNames(s, off, n)
    ensures e < n && NameAt(s, off, e, name)
  {
    NextEntry(s, off, n - 1);
    if name in EntryNames(s, off, n - 1) {
      e := ListedAt(s, off, n - 1, name);
    } else {
      e := n - 1;
    }
  }

  lemma {:induction false} AtListed(s: seq<byte>, off: nat, n: nat, e: nat, name: Name)
    requires off + ENTRY_SIZE * n <= |s| && e < n && NameAt(s, off, e, name)
    ensures name in EntryNames(s, off, n)
  {
    NextEntry(s, off, n - 1);
    if e < n - 1 { AtListed(s, off, n - 1, e, name); }
  }

  /** Entry `e` of sector `sect` has this name. */
  ghost predicate InSector(f: File, sect: nat, e: nat, name: Name) {
    e < Entries(f) && NameAt(f.bytes, f.Offset(sect), e, name)
  }

  lemma SectorListed(f: File, sect: nat, name: Name)
    requires f.Readable(sect)
    ensures name in SectorNames(f, sect) <==> exists e: nat :: InSector(f, sect, e, name)
  {
    EntriesInside(f, sect, Entries(f));
    if name in SectorNames(f, sect) {
      var e := ListedAt(f.bytes, f.Offset(sect), Entries(f), name);
      assert InSector(f, sect, e, name);
    }
    forall e: nat | InSector(f, sect, e, name) ensures name in SectorNames(f, sect) {
      AtListed(f.bytes, f.Offset(sect), Entries(f), e, name);
    }
  }

  lemma {:induction false} ListedInChain(f: File, p: seq<nat>, name: Name) returns (i: nat, e: nat)
    requires (forall i :: 0 <= i < |p| ==> f.Readable(p[i])) && name in ChainNames(f, p)
    ensures i < |p| && InSector(f, p[i], e, name)
    decreases |p|
  {
    var n := |p| - 1;
    if name in SectorNames(f, p[n]) {
      SectorListed(f, p[n], name);
      i, e := n, EntryIn(f, p[n], name);
    } else {
      i, e := ListedInChain(f, p[..n], name);
    }
  }

  ghost function EntryIn(f: File, sect: nat, name: Name): (e: nat)
    requires exists e: nat :: InSector(f, sect, e, name)
    ensures InSector(f, sect, e, name)
  {
    var e: nat :| InSector(f, sect, e, name);
    e
  }

  lemma {:induction false} InChainListed(f: File, p: seq<nat>, i: nat, e: nat, name: Name)
    requires (forall i :: 0 <= i < |p| ==> f.Readable(p[i])) && i < |p| && InSector(f, p[i], e, name)
    ensures name in ChainNames(f, p)
    decreases |p|
  {
    var n := |p| - 1;
    if i == n {
      SectorListed(f, p[n], name);
    } else {
      InChainListed(f, p[..n], i, e, name);
    }
  }

  // ----- the file as written -----

  /** A 32-bit field. */
  function Field(s: seq<byte>, k: nat): nat
    requires k + 4 <= |s|
  {
    s[k] as nat + 0x100 * (s[k + 1] as nat) + 0x1_0000 * (s[k + 2] as nat) + 0x100_0000 * (s[k + 3] as nat)
  }

  lemma FieldIsLittle(s: seq<byte>, k: nat)
    requires k + 4 <= |s|
    ensures Little(s, k, k + 4) == Field(s, k)
  {
    assert Little(s, k + 4, k + 4) == 0;
    assert Little(s, k + 3, k + 4) == s[k + 3];
    assert Little(s, k + 2, k + 4) == s[k + 2] as nat + 256 * (s[k + 3] as nat);
  }

  /** The layout of a compound file: sector size, the sectors of the allocation table, and the chain of
      directory sectors with the mark that ends it. Sector k starts k + 1 sectors into the file. */
  datatype Layout = Layout(sector: nat, slots: seq<nat>, dir: seq<nat>) {
    /** Table entries in a sector. */
    function PerSector(): nat { if sector == 512 then 128 else 1024 }

    predicate Inside(b: seq<byte>, size: nat, k: nat) { (k + 2) * sector <= size && (k + 2) * sector <= |b| }

    predicate Header(b: seq<byte>, size: nat) {
      && size >= 512 && |b| >= 512 && Sits(b, 0, [0xD0, 0xCF, 0x11, 0xE0, 0xA1, 0xB1, 0x1A, 0xE1])
      && ((sector == 512 && Half(b, 30) == 9) || (sector == 4096 && Half(b, 30) == 12))
      && Field(b, 68) == 0xFFFF_FFFE
    }
    predicate Table(b: seq<byte>, size: nat)
      requires |b| >= 512
    {
      && |slots| == 109 && (forall i :: 0 <= i < 109 ==> slots[i] == Field(b, 76 + 4 * i))
      && (forall i :: 0 <= i < 109 ==> slots[i] < 0xFFFF_FFFA ==> Inside(b, size, slots[i]))
    }

    /** The table says that `next` follows sector `k`: in slot k/n, at entry k%n. */
    predicate Links(b: seq<byte>, k: nat, next: nat) {
      var slot, entry := if sector == 512 then k / 128 else k / 1024, if sector == 512 then k % 128 else k % 1024;
      && slot < |slots| && slots[slot] < 0xFFFF_FFFA
      && (slots[slot] + 1) * sector + 4 * entry + 4 <= |b|
      && next == Field(b, (slots[slot] + 1) * sector + 4 * entry)
    }
    predicate Chain(b: seq<byte>, size: nat)
      requires |b| >= 512
    {
      && 1 <= |dir| <= 4097 && dir[0] == Field(b, 48) && dir[|dir| - 1] >= 0xFFFF_FFFA
      && (forall i :: 0 <= i < |dir| - 1 ==>
            dir[i] < 0xFFFF_FFFA && Inside(b, size, dir[i]) && Links(b, dir[i], dir[i + 1]))
      && (forall i, j :: 0 <= i < j < |dir| - 1 ==> dir[i] != dir[j])
    }
    predicate Is(b: seq<byte>, size: nat) { Header(b, size) && Table(b, size) && Chain(b, size) }

    /** Entry `e` of the i-th directory sector has this name. */
    ghost predicate Has(b: seq<byte>, i: nat, e: nat, text: Name) {
      i + 1 < |dir| && e < (if sector == 512 then 4 else 32) && Marked(b, (dir[i] + 1) * sector + 128 * e, text)
    }
  }

  lemma HeaderReads(b: seq<byte>, size: nat, lay: Layout)
    requires lay.Header(b, size)
    ensures HeaderOk(b, size) && Opened(b, size) == File(b, size, lay.sector)
  {
    HalfIsLittle(b, 30);
    FieldIsLittle(b, 68);
    SitsIsSlice(b, 0, MAGIC);
  }

  lemma SlotReads(f: File, lay: Layout, i: nat)
    requires f.sector == lay.sector && |f.bytes| >= 512 && lay.Table(f.bytes, f.size) && i < 109
    ensures Slot(f, i) == lay.slots[i] && (Slot(f, i) < SENTINEL ==> f.Readable(Slot(f, i)))
  {
    FieldIsLittle(f.bytes, 76 + 4 * i);
    InsideIsReadable(f, lay, lay.slots[i]);
  }

  lemma InsideIsReadable(f: File, lay: Layout, k: nat)
    requires f.sector == lay.sector
    ensures f.Readable(k) <==> k < 0xFFFF_FFFA && lay.Inside(f.bytes, f.size, k)
    ensures f.Offset(k) == (k + 1) * lay.sector
  {
  }

  /** The table of a file whose slots are readable. */
  lemma FatOf(f: File) returns (fat: map<nat, nat>)
    requires |f.bytes| >= HEADER_SIZE && SlotsReadable(f, DIFAT_SLOTS)
    ensures IsFat(f, fat, DIFAT_SLOTS)
  {
    fat := map sect: nat | sect < 109 * 1024 && Covered(f, sect, DIFAT_SLOTS)
        && EntryOffset(f, sect) + 4 <= |f.bytes| ::
      Little(f.bytes, EntryOffset(f, sect), EntryOffset(f, sect) + 4);
    forall sect: nat
      ensures (sect in fat <==> Covered(f, sect, DIFAT_SLOTS)) && (sect in fat ==> IsEntry(f, sect, fat[sect]))
    {
      if Covered(f, sect, DIFAT_SLOTS) {
        EntryInside(f, sect);
        SlotRange(f, SlotOf(f, sect), sect);
      }
    }
  }

  lemma LinkReads(f: File, fat: map<nat, nat>, lay: Layout, k: nat, next: nat)
    requires f.sector == lay.sector && |f.bytes| >= 512 && lay.Table(f.bytes, f.size) && IsFat(f, fat, DIFAT_SLOTS)
    ensures lay.Links(f.bytes, k, next) <==> k in fat && fat[k] == next
  {
    var q := SlotOf(f, k);
    if q < 109 {
      SlotReads(f, lay, q);
      if Covered(f, k, DIFAT_SLOTS) {
        EntryInside(f, k);
        FieldIsLittle(f.bytes, EntryOffset(f, k));
        InsideIsReadable(f, lay, lay.slots[q]);
      }
    }
  }

  lemma ChainReads(f: File, fat: map<nat, nat>, lay: Layout)
    requires f.sector == lay.sector && |f.bytes| >= 512 && lay.Table(f.bytes, f.size) && IsFat(f, fat, DIFAT_SLOTS)
    ensures lay.Chain(f.bytes, f.size) <==> IsChain(f, fat, Little(f.bytes, 48, 52), lay.dir)
  {
    FieldIsLittle(f.bytes, 48);
    DistinctFront(lay.dir);
    var dir, n := lay.dir, |lay.dir| - 1;
    if lay.Chain(f.bytes, f.size) {
      forall i | 0 <= i < n ensures f.Readable(dir[i]) && dir[i] in fat && fat[dir[i]] == dir[i + 1] {
        LinkIs(f, fat, lay, i);
      }
    }
    if IsChain(f, fat, Little(f.bytes, 48, 52), dir) {
      forall i | 0 <= i < n
        ensures dir[i] < 0xFFFF_FFFA && lay.Inside(f.bytes, f.size, dir[i]) && lay.Links(f.bytes, dir[i], dir[i + 1])
      {
        LinkIs(f, fat, lay, i);
      }
    }
  }

  lemma LinkIs(f: File, fat: map<nat, nat>, lay: Layout, i: nat)
    requires f.sector == lay.sector && |f.bytes| >= 512 && lay.Table(f.bytes, f.size) && IsFat(f, fat, DIFAT_SLOTS)
    requires i + 1 < |lay.dir|
    ensures var k, next := lay.dir[i], lay.dir[i + 1];
            && (f.Readable(k) <==> k < 0xFFFF_FFFA && lay.Inside(f.bytes, f.size, k))
            && (lay.Links(f.bytes, k, next) <==> k in fat && fat[k] == next)
  {
    InsideIsReadable(f, lay, lay.dir[i]);
    LinkReads(f, fat, lay, lay.dir[i], lay.dir[i + 1]);
  }

  lemma DistinctFront(p: seq<nat>)
    ensures p != [] ==>
              (Distinct(p[..|p| - 1]) <==> forall i, j :: 0 <= i < j < |p| - 1 ==> p[i] != p[j])
  {
    if p != [] {
      var front := p[..|p| - 1];
      assert forall i :: 0 <= i < |front| ==> front[i] == p[i];
    }
  }

  lemma TableReads(f: File, lay: Layout)
    requires f.sector == lay.sector && |f.bytes| >= 512 && lay.Table(f.bytes, f.size)
    ensures SlotsReadable(f, DIFAT_SLOTS)
  {
    forall i | 0 <= i < DIFAT_SLOTS && Slot(f, i) < SENTINEL ensures f.Readable(Slot(f, i)) {
      SlotReads(f, lay, i);
    }
  }

  /** A file laid out so is a well-formed compound file with that directory chain. */
  lemma LayoutReads(b: seq<byte>, size: nat, lay: Layout) returns (fat: map<nat, nat>, names: seq<Name>)
    requires lay.Is(b, size)
    ensures DirectoryIs(b, size, fat, lay.dir, names)
  {
    HeaderReads(b, size, lay);
    var f := Opened(b, size);
    TableReads(f, lay);
    fat := FatOf(f);
    ChainReads(f, fat, lay);
    names := ChainNames(f, lay.dir[..|lay.dir| - 1]);
  }

  /** Every well-formed compound file is laid out so. */
  lemma LayoutComesFrom(b: seq<byte>, size: nat, fat: map<nat, nat>, chain: seq<nat>, names: seq<Name>)
    returns (lay: Layout)
    requires DirectoryIs(b, size, fat, chain, names)
    ensures lay.Is(b, size) && lay.dir == chain
  {
    var f := Opened(b, size);
    lay := Layout(f.sector, seq(109, i requires 0 <= i < 109 => Slot(f, i)), chain);
    HalfIsLittle(b, 30);
    FieldIsLittle(b, 68);
    SitsIsSlice(b, 0, MAGIC);
    forall i | 0 <= i < 109
      ensures lay.slots[i] == Field(b, 76 + 4 * i) && (lay.slots[i] < 0xFFFF_FFFA ==> lay.Inside(b, size, lay.slots[i]))
    {
      FieldIsLittle(b, 76 + 4 * i);
      InsideIsReadable(f, lay, lay.slots[i]);
    }
    ChainReads(f, fat, lay);
  }

  /** The names a directory lists are the names its entries spell. */
  lemma ListedIffHas(b: seq<byte>, size: nat, lay: Layout, fat: map<nat, nat>, names: seq<Name>, text: Name)
    requires lay.Is(b, size) && DirectoryIs(b, size, fat, lay.dir, names) && Ascii(text)
    ensures text in names <==> exists i: nat, e: nat :: lay.Has(b, i, e, text)
  {
    HeaderReads(b, size, lay);
    var f, p := Opened(b, size), lay.dir[..|lay.dir| - 1];
    if text in names {
      var i, e := ListedInChain(f, p, text);
      HasIsInSector(f, lay, i, e, text);
      assert lay.Has(b, i, e, text);
    }
    forall i: nat, e: nat | lay.Has(b, i, e, text) ensures text in names {
      HasIsInSector(f, lay, i, e, text);
      InChainListed(f, p, i, e, text);
    }
  }

  lemma HasIsInSector(f: File, lay: Layout, i: nat, e: nat, text: Name)
    requires f.sector == lay.sector && i + 1 < |lay.dir| && f.Readable(lay.dir[i]) && Ascii(text)
    ensures InSector(f, lay.dir[i], e, text) <==> lay.Has(f.bytes, i, e, text)
  {
    InsideIsReadable(f, lay, lay.dir[i]);
    if e < Entries(f) {
      EntriesInside(f, lay.dir[i], e + 1);
      MarkedIffNamed(f.bytes, f.Offset(lay.dir[i]) + 128 * e, text);
    }
  }

  // ----- what a file is classified as -----

  function Text(s: string): Name { seq(|s|, i requires 0 <= i < |s| => s[i] as nat) }

  /** The file has a directory entry of this name. */
  ghost predicate HasName(lay: Layout, b: seq<byte>, s: string) {
    exists i: nat, e: nat :: lay.Has(b, i, e, Text(s))
  }

  ghost predicate NamedEncrypted(lay: Layout, b: seq<byte>) {
    HasName(lay, b, "EncryptionInfo") || HasName(lay, b, "EncryptedPackage")
  }

  ghost predicate NamedLegacy(lay: Layout, b: seq<byte>) {
    || HasName(lay, b, "WordDocument") || HasName(lay, b, "Workbook")
    || HasName(lay, b, "Book") || HasName(lay, b, "PowerPoint Document")
  }

  lemma MarksTexts(n: Name)
    ensures MarksEncrypted(n) <==> n == Text("EncryptionInfo") || n == Text("EncryptedPackage")
    ensures MarksLegacy(n) <==>
              || n == Text("WordDocument") || n == Text("Workbook")
              || n == Text("Book") || n == Text("PowerPoint Document")
  {
    assert Text("EncryptionInfo") == ENCRYPTION_INFO && Text("EncryptedPackage") == ENCRYPTED_PACKAGE;
    assert Text("WordDocument") == WORD_DOCUMENT && Text("Workbook") == WORKBOOK && Text("Book") == BOOK;
    assert Text("PowerPoint Document") == POWERPOINT;
  }

  lemma TextListed(b: seq<byte>, size: nat, lay: Layout, fat: map<nat, nat>, names: seq<Name>, s: string)
    requires lay.Is(b, size) && DirectoryIs(b, size, fat, lay.dir, names) && forall c <- s :: c as nat < 0x80
    ensures Text(s) in names <==> HasName(lay, b, s)
  {
    forall i | 0 <= i < |s| ensures Text(s)[i] < 0x80 { assert s[i] in s; }
    ListedIffHas(b, size, lay, fat, names, Text(s));
  }

  lemma EncryptedHeld(b: seq<byte>, size: nat, lay: Layout, fat: map<nat, nat>, names: seq<Name>)
    requires lay.Is(b, size) && DirectoryIs(b, size, fat, lay.dir, names)
    ensures (exists n <- names :: MarksEncrypted(n)) <==> NamedEncrypted(lay, b)
  {
    TextListed(b, size, lay, fat, names, "EncryptionInfo");
    TextListed(b, size, lay, fat, names, "EncryptedPackage");
    MarksAmong(names);
  }

  lemma LegacyHeld(b: seq<byte>, size: nat, lay: Layout, fat: map<nat, nat>, names: seq<Name>)
    requires lay.Is(b, size) && DirectoryIs(b, size, fat, lay.dir, names)
    ensures (exists n <- names :: MarksLegacy(n)) <==> NamedLegacy(lay, b)
  {
    TextListed(b, size, lay, fat, names, "WordDocument");
    TextListed(b, size, lay, fat, names, "Workbook");
    TextListed(b, size, lay, fat, names, "Book");
    TextListed(b, size, lay, fat, names, "PowerPoint Document");
    MarksAmong(names);
  }

  lemma MarksAmong(names: seq<Name>)
    ensures (exists n <- names :: MarksEncrypted(n)) <==>
              Text("EncryptionInfo") in names || Text("EncryptedPackage") in names
    ensures (exists n <- names :: MarksLegacy(n)) <==>
              || Text("WordDocument") in names || Text("Workbook") in names
              || Text("Book") in names || Text("PowerPoint Document") in names
  {
    forall n: Name
      ensures MarksEncrypted(n) <==> n == Text("EncryptionInfo") || n == Text("EncryptedPackage")
      ensures MarksLegacy(n) <==>
                || n == Text("WordDocument") || n == Text("Workbook")
                || n == Text("Book") || n == Text("PowerPoint Document")
    {
      MarksTexts(n);
    }
  }

  lemma LayoutClass(b: seq<byte>, size: nat, lay: Layout)
    requires lay.Is(b, size)
    ensures IsEncrypted(b, size) <==> NamedEncrypted(lay, b)
    ensures IsLegacy(b, size) <==> NamedLegacy(lay, b) && !NamedEncrypted(lay, b)
  {
    var fat, names := LayoutReads(b, size, lay);
    EncryptedHeld(b, size, lay, fat, names);
    LegacyHeld(b, size, lay, fat, names);
    forall m, p, ns | DirectoryIs(b, size, m, p, ns) ensures ns == names {
      OneDirectory(b, size, m, p, ns, fat, lay.dir, names);
    }
  }

  /** Exactness, from the bytes: a file is encrypted if and only if it is laid out as a compound file
      one of whose directory entries is named so, and legacy if and only if it is laid out so, has an
      entry named as a legacy document and none named as encrypted. */
  lemma ClassifiedIff(b: seq<byte>, size: nat)
    ensures ClassOf(b, size) == Encrypted <==> exists lay: Layout :: lay.Is(b, size) && NamedEncrypted(lay, b)
    ensures ClassOf(b, size) == Legacy <==>
              exists lay: Layout :: lay.Is(b, size) && NamedLegacy(lay, b) && !NamedEncrypted(lay, b)
  {
    if IsEncrypted(b, size) || IsLegacy(b, size) {
      var fat, chain, names :| DirectoryIs(b, size, fat, chain, names);
      var lay := LayoutComesFrom(b, size, fat, chain, names);
      LayoutClass(b, size, lay);
    }
    forall lay: Layout | lay.Is(b, size)
      ensures NamedEncrypted(lay, b) ==> ClassOf(b, size) == Encrypted
      ensures NamedLegacy(lay, b) && !NamedEncrypted(lay, b) ==> ClassOf(b, size) == Legacy
    {
      LayoutClass(b, size, lay);
    }
  }
}
