/**
 PyroFS: a superblock, one directory sector and fixed slots of 32 sectors, on a drive
 that commits one sector at a time and may fail.
 */
module Fs {
  import opened Bytes

  const SECTOR := 512
  const MAGIC: Word32 := 0x50594F53
  const SUPER_LBA := 99
  const DIR_LBA := 100
  const DATA_LBA := 101
  const MAX_FILES := 16
  const NAME_LEN := 20
  const SLOT := 32
  const SLOT_BYTES := 16384
  const LBA_LIMIT := 0x1000_0000

  type Sector = s: seq<Byte> | |s| == SECTOR witness seq(SECTOR, i => 0)
  type Lba = n: int | 0 <= n < LBA_LIMIT
  type Disk = d: seq<Sector> | |d| == LBA_LIMIT witness seq<Sector>(LBA_LIMIT, i => ZeroSector())
  type NameField = s: seq<Byte> | |s| == NAME_LEN witness seq(NAME_LEN, i => 0)

  datatype Entry = Entry(name: NameField, size: Word32, start: Word32, used: Word32)

  function ZeroSector(): Sector {
    seq(SECTOR, i => 0)
  }

  function ZeroEntry(): Entry {
    Entry(seq(NAME_LEN, i => 0), 0, 0, 0)
  }

  type Directory = d: seq<Entry> | |d| == MAX_FILES witness seq(MAX_FILES, i => ZeroEntry())
  type Padding = s: seq<Byte> | |s| == SECTOR - 8 witness seq(SECTOR - 8, i => 0)

  /** The metadata the kernel holds in memory: the superblock and the directory. */
  datatype Volume = Volume(magic: Word32, next: Word32, pad: Padding, dir: Directory)

  // ---- the on-disk format ------------------------------------------------------

  function EntryBytes(e: Entry): (b: seq<Byte>)
    ensures |b| == 32
  {
    e.name + Le(e.size) + Le(e.start) + Le(e.used)
  }

  function EntryOf(b: seq<Byte>): Entry
    requires |b| == 32
  {
    Entry(b[..20], FromLe(b[20..24]), FromLe(b[24..28]), FromLe(b[28..32]))
  }

  lemma EntryRoundTrip(e: Entry)
    ensures EntryOf(EntryBytes(e)) == e
  {
    var b := EntryBytes(e);
    assert b[..20] == e.name && b[20..24] == Le(e.size) && b[24..28] == Le(e.start) && b[28..32] == Le(e.used);
    LeThenFrom(e.size);
    LeThenFrom(e.start);
    LeThenFrom(e.used);
  }

  lemma EntryBytesRoundTrip(b: seq<Byte>)
    requires |b| == 32
    ensures EntryBytes(EntryOf(b)) == b
  {
    FromThenLe(b[20..24]);
    FromThenLe(b[24..28]);
    FromThenLe(b[28..32]);
    assert b == b[..20] + b[20..24] + b[24..28] + b[28..32];
  }

  function SuperBytes(v: Volume): Sector {
    Le(v.magic) + Le(v.next) + v.pad
  }

  function DirBytes(d: Directory): Sector {
    seq(SECTOR, k requires 0 <= k < SECTOR => EntryBytes(d[k / 32])[k % 32])
  }

  function DirOf(s: Sector): Directory {
    seq(MAX_FILES, i requires 0 <= i < MAX_FILES => EntryOf(s[32 * i..32 * i + 32]))
  }

  /** What load_meta reads. */
  function MountOf(d: Disk): Volume {
    var s := d[SUPER_LBA];
    Volume(FromLe(s[..4]), FromLe(s[4..8]), s[8..], DirOf(d[DIR_LBA]))
  }

  lemma DirRoundTrip(d: Directory)
    ensures DirOf(DirBytes(d)) == d
  {
    forall i | 0 <= i < MAX_FILES ensures DirOf(DirBytes(d))[i] == d[i] {
      forall j | 0 <= j < 32 ensures DirBytes(d)[32 * i..32 * i + 32][j] == EntryBytes(d[i])[j] {
        assert (32 * i + j) / 32 == i && (32 * i + j) % 32 == j;
      }
      assert DirBytes(d)[32 * i..32 * i + 32] == EntryBytes(d[i]);
      EntryRoundTrip(d[i]);
    }
  }

  lemma DirBytesRoundTrip(s: Sector)
    ensures DirBytes(DirOf(s)) == s
  {
    forall k | 0 <= k < SECTOR ensures DirBytes(DirOf(s))[k] == s[k] {
      var i := k / 32;
      EntryBytesRoundTrip(s[32 * i..32 * i + 32]);
    }
  }

  /** The superblock and directory sectors carry the metadata exactly, and every sector pair is some metadata. */
  lemma MountRoundTrip(d: Disk, v: Volume)
    ensures MountOf(d[SUPER_LBA := SuperBytes(v)][DIR_LBA := DirBytes(v.dir)]) == v
    ensures MountOf(d[SUPER_LBA := SuperBytes(v)]) == v.(dir := DirOf(d[DIR_LBA]))
    ensures MountOf(d[DIR_LBA := DirBytes(v.dir)]) == MountOf(d).(dir := v.dir)
    ensures SuperBytes(MountOf(d)) == d[SUPER_LBA] && DirBytes(MountOf(d).dir) == d[DIR_LBA]
  {
    var s := SuperBytes(v);
    assert s[..4] == Le(v.magic) && s[4..8] == Le(v.next) && s[8..] == v.pad;
    LeThenFrom(v.magic);
    LeThenFrom(v.next);
    DirRoundTrip(v.dir);
    DirBytesRoundTrip(d[DIR_LBA]);
    FromThenLe(d[SUPER_LBA][..4]);
    FromThenLe(d[SUPER_LBA][4..8]);
    assert d[SUPER_LBA] == d[SUPER_LBA][..4] + d[SUPER_LBA][4..8] + d[SUPER_LBA][8..];
  }

  /** Where each field lies on the disk: sector 99 is the superblock, sector 100 sixteen entries of 32 bytes. */
  lemma FormatIs(d: Disk, v: Volume, i: nat)
    requires MountOf(d) == v && i < 16
    ensures d[99][..4] == Le(v.magic) && d[99][4..8] == Le(v.next) && d[99][8..] == v.pad
    ensures var b, e := d[100][32 * i..32 * i + 32], v.dir[i];
            b[..20] == e.name && b[20..24] == Le(e.size) && b[24..28] == Le(e.start) && b[28..32] == Le(e.used)
  {
    var s, b := d[99], d[100][32 * i..32 * i + 32];
    FromThenLe(s[..4]);
    FromThenLe(s[4..8]);
    FromThenLe(b[20..24]);
    FromThenLe(b[24..28]);
    FromThenLe(b[28..32]);
  }

  // ---- names -------------------------------------------------------------------

  predicate Named(e: Entry, name: Str) {
    e.used != 0 && CStr(e.name) == name
  }

  /** The first entry of that name from i on, or 16. */
  function IndexFrom(dir: Directory, name: Str, i: nat): (k: nat)
    requires i <= MAX_FILES
    ensures i <= k <= MAX_FILES
    ensures k < MAX_FILES ==> Named(dir[k], name)
    ensures forall j :: i <= j < k ==> !Named(dir[j], name)
    decreases MAX_FILES - i
  {
    if i == MAX_FILES || Named(dir[i], name) then i else IndexFrom(dir, name, i + 1)
  }

  function Index(dir: Directory, name: Str): (k: nat)
    ensures k <= MAX_FILES
    ensures k < MAX_FILES ==> Named(dir[k], name)
    ensures forall j :: 0 <= j < k ==> !Named(dir[j], name)
  {
    IndexFrom(dir, name, 0)
  }

  /** The first unused entry from i on, or 16. */
  function FreeFrom(dir: Directory, i: nat): (k: nat)
    requires i <= MAX_FILES
    ensures i <= k <= MAX_FILES
    ensures k < MAX_FILES ==> dir[k].used == 0
    ensures forall j :: i <= j < k ==> dir[j].used != 0
    decreases MAX_FILES - i
  {
    if i == MAX_FILES || dir[i].used == 0 then i else FreeFrom(dir, i + 1)
  }

  function Cut(name: Str): (s: Str)
    ensures |s| < NAME_LEN && s <= name && |s| == if |name| <= 19 then |name| else 19
    ensures s == name <==> |name| < NAME_LEN
  {
    if |name| < NAME_LEN then name else
      assert 0 !in name[..NAME_LEN - 1];
      name[..NAME_LEN - 1]
  }

  /** strncpy_z into a name field: at most 19 characters and a NUL; the bytes after it stay. */
  function CopyName(field: NameField, name: Str): (f: NameField)
    ensures 0 in f && CStr(f) == Cut(name)
  {
    var c := Cut(name);
    var f := c + [0] + field[|c| + 1..];
    assert f[|c|] == 0;
    CStrIs(f, c);
    f
  }

  // ---- consistency -------------------------------------------------------------

  predicate Placed(e: Entry, next: int) {
    0 in e.name && DATA_LBA <= e.start && e.start as int + SLOT <= next
  }

  predicate Apart(e: Entry, g: Entry) {
    e.start as int + SLOT <= g.start as int || g.start as int + SLOT <= e.start as int
  }

  /** Used slots are disjoint and below next_free_lba. */
  predicate Sound(v: Volume) {
    && v.magic == MAGIC
    && DATA_LBA <= v.next as int <= LBA_LIMIT
    && (forall i :: 0 <= i < MAX_FILES ==> v.dir[i].size as int <= SLOT_BYTES)
    && (forall i :: 0 <= i < MAX_FILES && v.dir[i].used != 0 ==> Placed(v.dir[i], v.next))
    && (forall i, j :: 0 <= i < j < MAX_FILES && v.dir[i].used != 0 && v.dir[j].used != 0 ==> Apart(v.dir[i], v.dir[j]))
  }

  predicate Distinct(dir: Directory) {
    forall i, j :: 0 <= i < j < MAX_FILES && dir[i].used != 0 && dir[j].used != 0 ==> CStr(dir[i].name) != CStr(dir[j].name)
  }

  /** The used entries come first. Entries are never given back, so every directory the kernel builds is like this. */
  predicate Packed(dir: Directory) {
    forall i, j :: 0 <= i < j < MAX_FILES && dir[j].used != 0 ==> dir[i].used != 0
  }

  function UsedBelow(dir: Directory, n: nat): (k: nat)
    requires n <= MAX_FILES
    ensures k <= n
    ensures k == n <==> forall i :: 0 <= i < n ==> dir[i].used != 0
  {
    if n == 0 then 0 else UsedBelow(dir, n - 1) + if dir[n - 1].used != 0 then 1 else 0
  }

  /** The drive can address a slot for every unused entry. */
  predicate Roomy(v: Volume) {
    v.next as int + SLOT * (MAX_FILES - UsedBelow(v.dir, MAX_FILES)) <= LBA_LIMIT
  }

  // ---- files -------------------------------------------------------------------

  /** The first `size` bytes of a slot. */
  function Content(d: Disk, e: Entry): (c: seq<Byte>)
    requires e.size as int <= SLOT_BYTES && e.start as int + SLOT <= LBA_LIMIT
    ensures |c| == e.size as int
  {
    seq(e.size as int, k requires 0 <= k < e.size as int => d[e.start as int + k / SECTOR][k % SECTOR])
  }

  type FileMap = map<Str, seq<Byte>>

  function NamesBelow(dir: Directory, n: nat): set<Str>
    requires n <= MAX_FILES
  {
    if n == 0 then {} else NamesBelow(dir, n - 1) + if dir[n - 1].used != 0 then {CStr(dir[n - 1].name)} else {}
  }

  function Names(dir: Directory): set<Str> {
    NamesBelow(dir, MAX_FILES)
  }

  /** Byte k of a file is byte k of its slot: sector start + k / 512. */
  lemma ContentAt(d: Disk, e: Entry, k: nat)
    requires e.size as int <= SLOT_BYTES && e.start as int + SLOT <= LBA_LIMIT && k < e.size as int
    ensures Content(d, e)[k] == d[e.start as int + k / 512][k % 512]
  {
  }

  /** The finite map a volume stands for. */
  function Files(v: Volume, d: Disk): FileMap
    requires Sound(v)
  {
    map n | n in Names(v.dir) && Index(v.dir, n) < MAX_FILES :: Content(d, v.dir[Index(v.dir, n)])
  }

  /** What fits in a slot: the first 16384 bytes at most. */
  function Clamp(data: seq<Byte>): (c: seq<Byte>)
    ensures c <= data && |c| == if |data| <= 16384 then |data| else 16384
  {
    if |data| > SLOT_BYTES then data[..SLOT_BYTES] else data
  }

  /** Create or overwrite, as a map: only a seventeenth name is refused. */
  function MapWrite(m: FileMap, name: Str, data: seq<Byte>): (FileMap, int) {
    if name in m || |m| < MAX_FILES then (m[name := Clamp(data)], 0) else (m, -1)
  }

  /** A name is kept cut to 19 characters; a long one never replaces the file of that cut name. */
  function MapPut(m: FileMap, name: Str, data: seq<Byte>): FileMap {
    if name in m || Cut(name) !in m then m[Cut(name) := Clamp(data)] else m
  }

  function Prefix(c: seq<Byte>, n: nat): (p: seq<Byte>)
    ensures p <= c && |p| == if |c| <= n then |c| else n
  {
    if |c| <= n then c else c[..n]
  }

  // ---- sector writes -----------------------------------------------------------

  datatype SectorWrite = SectorWrite(lba: Lba, data: Sector)

  /** The disk after a list of sector writes, each of them atomic. */
  function Apply(d: Disk, w: seq<SectorWrite>): Disk {
    if w == [] then d else
      var last := w[|w| - 1];
      Apply(d, w[..|w| - 1])[last.lba := last.data]
  }

  lemma ApplyOne(d: Disk, w: seq<SectorWrite>, x: SectorWrite)
    ensures Apply(d, w + [x]) == Apply(d, w)[x.lba := x.data]
  {
    assert (w + [x])[..|w|] == w;
  }

  lemma {:induction false} ApplyBoth(d: Disk, a: seq<SectorWrite>, b: seq<SectorWrite>)
    ensures Apply(d, a + b) == Apply(Apply(d, a), b)
    decreases |b|
  {
    if b == [] {
      assert a + b == a;
    } else {
      var c := b[..|b| - 1];
      ApplyBoth(d, a, c);
      assert (a + b)[..|a + b| - 1] == a + c;
    }
  }

  /** The bytes of one sector, padded with zeros. */
  function DataSector(data: seq<Byte>, s: nat): Sector {
    seq(SECTOR, k requires 0 <= k < SECTOR => if SECTOR * s + k < |data| then data[SECTOR * s + k] else 0)
  }

  function SectorCount(size: nat): (n: nat)
    ensures 1 <= n && size <= SECTOR * n
    ensures size <= SLOT_BYTES ==> n <= SLOT
  {
    var n := (size + 511) / SECTOR;
    if n == 0 then 1 else n
  }

  /** As many sectors as the bytes need, and one for an empty file. */
  lemma SectorsExact(size: nat)
    ensures var n := SectorCount(size); if size == 0 then n == 1 else 512 * (n - 1) < size <= 512 * n
  {
  }

  function DataWrites(start: nat, data: seq<Byte>, n: nat): (w: seq<SectorWrite>)
    requires start + n <= LBA_LIMIT
    ensures |w| == n
  {
    seq(n, s requires 0 <= s < n => SectorWrite(start + s, DataSector(data, s)))
  }

  lemma DataWritesNext(start: nat, data: seq<Byte>, n: nat)
    requires start + n < LBA_LIMIT
    ensures DataWrites(start, data, n + 1) == DataWrites(start, data, n) + [SectorWrite(start + n, DataSector(data, n))]
  {
  }

  lemma {:induction false} ApplyData(d: Disk, start: nat, data: seq<Byte>, n: nat, l: Lba)
    requires start + n <= LBA_LIMIT
    ensures Apply(d, DataWrites(start, data, n))[l] == if start <= l < start + n then DataSector(data, l - start) else d[l]
  {
    if n > 0 {
      DataWritesNext(start, data, n - 1);
      ApplyOne(d, DataWrites(start, data, n - 1), SectorWrite(start + n - 1, DataSector(data, n - 1)));
      ApplyData(d, start, data, n - 1, l);
    }
  }

  // ---- what fs_write does to the metadata ------------------------------------------

  /** The entry fs_write works on: the one of that name, else the first unused one, else 16. */
  function Target(dir: Directory, name: Str): (k: nat)
    ensures k <= MAX_FILES
  {
    var i := Index(dir, name);
    if i < MAX_FILES then i else FreeFrom(dir, 0)
  }

  /** Whether a lookup of the stored name finds the entry fs_write works on. */
  predicate Lands(dir: Directory, name: Str) {
    Index(dir, name) < MAX_FILES || Target(dir, name) < Index(dir, Cut(name))
  }

  /** There is an entry for the name, and if it is new, an addressable slot. */
  predicate Can(v: Volume, name: Str) {
    Target(v.dir, name) < MAX_FILES && (Index(v.dir, name) == MAX_FILES ==> v.next as int + SLOT <= LBA_LIMIT)
  }

  /** The metadata before any data is written: a new name gets an entry and a slot. */
  function Opened(v: Volume, name: Str): Volume
    requires Can(v, name)
  {
    if Index(v.dir, name) < MAX_FILES then v else
      var k := Target(v.dir, name);
      var e := v.dir[k].(used := 1, name := CopyName(v.dir[k].name, name), start := v.next);
      v.(next := v.next as int + SLOT, dir := v.dir[k := e])
  }

  /** The metadata afterwards: the size is known too. */
  function Closed(v: Volume, name: Str, data: seq<Byte>): Volume
    requires Can(v, name)
  {
    var k := Target(v.dir, name);
    var o := Opened(v, name);
    o.(dir := o.dir[k := o.dir[k].(size := |Clamp(data)|)])
  }

  function StartOf(v: Volume, name: Str): Word32
    requires Can(v, name)
  {
    Opened(v, name).dir[Target(v.dir, name)].start
  }

  /** Every sector fs_write writes, in order: superblock of a new file, data, directory. */
  function WriteLog(v: Volume, name: Str, data: seq<Byte>): seq<SectorWrite>
    requires Sound(v) && Can(v, name)
  {
    var c := Clamp(data);
    OpenLog(v, name)
    + DataWrites(StartOf(v, name), c, SectorCount(|c|))
    + [SectorWrite(DIR_LBA, DirBytes(Closed(v, name, data).dir))]
  }

  function OpenLog(v: Volume, name: Str): seq<SectorWrite>
    requires Can(v, name)
  {
    if Index(v.dir, name) < MAX_FILES then [] else [SectorWrite(SUPER_LBA, SuperBytes(Opened(v, name)))]
  }

  lemma PutKeepsSound(v: Volume, k: nat, e: Entry, next: Word32)
    requires Sound(v) && k < MAX_FILES && v.next <= next && next as int <= LBA_LIMIT
    requires e.size as int <= SLOT_BYTES && Placed(e, next)
    requires forall j :: 0 <= j < MAX_FILES && j != k && v.dir[j].used != 0 ==> Apart(v.dir[j], e)
    ensures Sound(v.(next := next, dir := v.dir[k := e]))
  {
  }

  /** Opening and closing an entry keep the slots apart. */
  lemma WriteKeepsSound(v: Volume, name: Str, data: seq<Byte>)
    requires Sound(v) && Can(v, name)
    ensures Sound(Opened(v, name)) && Sound(Closed(v, name, data))
    ensures DATA_LBA <= StartOf(v, name) as int <= LBA_LIMIT - SLOT
  {
    var k := Target(v.dir, name);
    var o := Opened(v, name);
    PutKeepsSound(v, k, o.dir[k], o.next);
    assert v.dir[k := o.dir[k]] == o.dir;
    PutKeepsSound(o, k, Closed(v, name, data).dir[k], o.next);
  }

  lemma {:induction false} PutUsed(dir: Directory, k: nat, e: Entry, n: nat)
    requires k < MAX_FILES && n <= MAX_FILES && e.used != 0
    ensures UsedBelow(dir[k := e], n) == UsedBelow(dir, n) + if k < n && dir[k].used == 0 then 1 else 0
  {
    if n > 0 {
      PutUsed(dir, k, e, n - 1);
    }
  }

  lemma WriteKeepsRoom(v: Volume, name: Str, data: seq<Byte>)
    requires Roomy(v) && Target(v.dir, name) < MAX_FILES
    ensures Can(v, name) && Roomy(Opened(v, name)) && Roomy(Closed(v, name, data))
  {
    var k := Target(v.dir, name);
    var o := Opened(v, name);
    PutUsed(v.dir, k, o.dir[k], MAX_FILES);
    PutUsed(o.dir, k, Closed(v, name, data).dir[k], MAX_FILES);
    assert v.dir[k := o.dir[k]] == o.dir;
  }

  lemma IndexIs(dir: Directory, n: Str, k: nat)
    requires Distinct(dir) && k < MAX_FILES && Named(dir[k], n)
    ensures Index(dir, n) == k
  {
  }

  lemma PutKeepsIndex(dir: Directory, k: nat, e: Entry, n: Str)
    requires k < MAX_FILES && (Named(e, n) <==> Named(dir[k], n))
    ensures Index(dir[k := e], n) == Index(dir, n)
  {
    hide Named;
    var x, y := Index(dir, n), Index(dir[k := e], n);
    assert x < MAX_FILES ==> Named(dir[k := e][x], n);
    assert y < MAX_FILES ==> Named(dir[y], n);
  }

  lemma PutKeepsDistinct(dir: Directory, k: nat, e: Entry)
    requires Distinct(dir) && k < MAX_FILES
    requires forall j :: 0 <= j < MAX_FILES && j != k && dir[j].used != 0 ==> CStr(dir[j].name) != CStr(e.name)
    ensures Distinct(dir[k := e])
  {
    hide CStr;
  }

  /** The entry fs_write leaves under a short name is the only one of that name. */
  lemma WriteKeepsDistinct(v: Volume, name: Str, data: seq<Byte>)
    requires Distinct(v.dir) && Can(v, name) && |name| < NAME_LEN
    ensures Distinct(Opened(v, name).dir) && Distinct(Closed(v, name, data).dir)
    ensures Named(Opened(v, name).dir[Target(v.dir, name)], name)
  {
    hide CStr, Distinct;
    var k, o := Target(v.dir, name), Opened(v, name).dir;
    forall j | 0 <= j < MAX_FILES && j != k && v.dir[j].used != 0 ensures CStr(v.dir[j].name) != name {
      if CStr(v.dir[j].name) == name {
        IndexIs(v.dir, name, j);
      }
    }
    PutKeepsDistinct(v.dir, k, o[k]);
    assert v.dir[k := o[k]] == o;
    PutKeepsDistinct(o, k, Closed(v, name, data).dir[k]);
  }

  lemma PutPacked(dir: Directory, k: nat, e: Entry)
    requires Packed(dir) && k < MAX_FILES && e.used != 0 && (dir[k].used != 0 || k == FreeFrom(dir, 0))
    ensures Packed(dir[k := e])
  {
  }

  lemma WriteKeepsPacked(v: Volume, name: Str, data: seq<Byte>)
    requires Packed(v.dir) && Can(v, name)
    ensures Packed(Opened(v, name).dir) && Packed(Closed(v, name, data).dir)
  {
    hide Packed, CStr, FreeFrom;
    var k, o := Target(v.dir, name), Opened(v, name).dir;
    PutPacked(v.dir, k, o[k]);
    assert v.dir[k := o[k]] == o;
    PutPacked(o, k, Closed(v, name, data).dir[k]);
  }

  lemma NoLongNames(v: Volume, name: Str)
    requires Sound(v) && |name| >= NAME_LEN
    ensures Index(v.dir, name) == MAX_FILES
  {
    var i := Index(v.dir, name);
    if i < MAX_FILES {
      SoundEntry(v, name);
      assert CStr(v.dir[i].name) == v.dir[i].name;
    }
  }

  lemma OtherEntry(v: Volume, name: Str, n: Str)
    requires Can(v, name) && n != name
    ensures Index(v.dir, n) != Target(v.dir, name)
  {
  }

  /** The stored name is found again unless an earlier entry has it; every other name keeps its entry. */
  lemma WriteKeepsNames(v: Volume, name: Str, data: seq<Byte>, n: Str)
    requires Sound(v) && Can(v, name)
    ensures Index(Opened(v, name).dir, n) == if n == Cut(name) && Lands(v.dir, name) then Target(v.dir, name) else Index(v.dir, n)
    ensures Index(Closed(v, name, data).dir, n) == Index(Opened(v, name).dir, n)
  {
    hide CStr, Sound, IndexFrom;
    var k := Target(v.dir, name);
    var o, c := Opened(v, name).dir, Closed(v, name, data).dir;
    if |name| >= NAME_LEN {
      NoLongNames(v, name);
    }
    assert v.dir[k := o[k]] == o;
    PutKeepsIndex(o, k, c[k], n);
    if Index(v.dir, name) == MAX_FILES {
      if n == Cut(name) {
        PutFirst(v.dir, k, o[k], n);
      } else {
        PutKeepsIndex(v.dir, k, o[k], n);
      }
    }
  }

  lemma PutFirst(dir: Directory, k: nat, e: Entry, n: Str)
    requires k < MAX_FILES && Named(e, n) && !Named(dir[k], n)
    ensures Index(dir[k := e], n) == if k < Index(dir, n) then k else Index(dir, n)
  {
    hide Named;
    var x, y := Index(dir, n), Index(dir[k := e], n);
    assert Named(dir[k := e][k], n) && (x < k ==> Named(dir[k := e][x], n));
    assert y < k ==> Named(dir[y], n);
  }

  /** In a packed directory, and for every short name, a write never hides another file. */
  lemma NeverHides(v: Volume, d: Disk, name: Str)
    requires Sound(v) && Can(v, name) && (Packed(v.dir) || |name| < NAME_LEN)
    ensures Lands(v.dir, name) <==> name in Files(v, d) || Cut(name) !in Files(v, d)
    ensures name in Files(v, d) ==> Cut(name) == name
  {
    hide CStr, Sound, Content, Names;
    FileIs(v, d, name);
    FileIs(v, d, Cut(name));
    if |name| >= NAME_LEN {
      NoLongNames(v, name);
    }
  }

  // ---- contents ------------------------------------------------------------------

  /** Data sectors outside one slot are as they were. */
  ghost predicate Spares(d: Disk, e: Disk, start: int) {
    forall l: Lba :: DATA_LBA <= l && !(start <= l < start + SLOT) ==> e[l] == d[l]
  }

  lemma ContentSpared(d: Disk, d': Disk, e: Entry, start: int)
    requires e.size as int <= SLOT_BYTES && DATA_LBA <= e.start as int <= LBA_LIMIT - SLOT && Spares(d, d', start)
    requires e.start as int + SLOT <= start || start + SLOT <= e.start as int
    ensures Content(d', e) == Content(d, e)
  {
    forall k | 0 <= k < e.size as int ensures Content(d', e)[k] == Content(d, e)[k] {
      var l := e.start as int + k / SECTOR;
      assert d'[l] == d[l];
    }
  }

  lemma ContentWritten(d: Disk, e: Entry, data: seq<Byte>)
    requires |data| == e.size as int <= SLOT_BYTES && e.start as int + SLOT <= LBA_LIMIT
    requires forall s :: 0 <= s < SectorCount(|data|) ==> d[e.start as int + s] == DataSector(data, s)
    ensures Content(d, e) == data
  {
    forall k | 0 <= k < |data| ensures Content(d, e)[k] == data[k] {
      assert d[e.start as int + k / SECTOR] == DataSector(data, k / SECTOR);
      assert SECTOR * (k / SECTOR) + k % SECTOR == k;
    }
  }

  lemma {:induction false} NamesBelowAre(dir: Directory, k: nat, n: Str)
    requires k <= MAX_FILES
    ensures n in NamesBelow(dir, k) <==> exists i :: 0 <= i < k && Named(dir[i], n)
  {
    if k > 0 {
      NamesBelowAre(dir, k - 1, n);
      assert Named(dir[k - 1], n) || !Named(dir[k - 1], n);
    }
  }

  lemma NamesAre(dir: Directory, n: Str)
    ensures n in Names(dir) <==> Index(dir, n) < MAX_FILES
  {
    NamesBelowAre(dir, MAX_FILES, n);
  }

  lemma FileIs(v: Volume, d: Disk, n: Str)
    requires Sound(v)
    ensures n in Files(v, d) <==> Index(v.dir, n) < MAX_FILES
    ensures n in Files(v, d) ==> Files(v, d)[n] == Content(d, v.dir[Index(v.dir, n)])
  {
    NamesAre(v.dir, n);
  }

  lemma SlotApart(v: Volume, name: Str, i: nat)
    requires Sound(v) && Can(v, name) && i < MAX_FILES && v.dir[i].used != 0 && i != Target(v.dir, name)
    ensures v.dir[i].size as int <= SLOT_BYTES && DATA_LBA <= v.dir[i].start as int <= LBA_LIMIT - SLOT
    ensures v.dir[i].start as int + SLOT <= StartOf(v, name) as int || StartOf(v, name) as int + SLOT <= v.dir[i].start as int
  {
  }

  /** Whatever happens to the file being written, a name it is not stored under reads as before. */
  lemma OthersKept(v: Volume, name: Str, data: seq<Byte>, d: Disk, d': Disk, n: Str)
    requires Sound(v) && Can(v, name) && n != name && !(n == Cut(name) && Lands(v.dir, name))
    requires Spares(d, d', StartOf(v, name) as int)
    ensures Sound(Opened(v, name)) && Sound(Closed(v, name, data))
    ensures var m := Files(v, d);
            && (n in Files(Opened(v, name), d') <==> n in m) && (n in Files(Closed(v, name, data), d') <==> n in m)
            && (n in m ==> Files(Opened(v, name), d')[n] == m[n] && Files(Closed(v, name, data), d')[n] == m[n])
  {
    WriteKeepsSound(v, name, data);
    WriteKeepsNames(v, name, data, n);
    OtherEntry(v, name, n);
    NamesAre(v.dir, n);
    NamesAre(Opened(v, name).dir, n);
    NamesAre(Closed(v, name, data).dir, n);
    var i := Index(v.dir, n);
    if i < MAX_FILES {
      SlotApart(v, name, i);
      ContentSpared(d, d', v.dir[i], StartOf(v, name) as int);
    }
  }

  lemma FileWritten(v: Volume, name: Str, data: seq<Byte>, d: Disk)
    requires Sound(v) && Can(v, name) && Lands(v.dir, name) && StartOf(v, name) as int + SLOT <= LBA_LIMIT
    requires forall s :: 0 <= s < SectorCount(|Clamp(data)|) ==> d[StartOf(v, name) as int + s] == DataSector(Clamp(data), s)
    ensures Sound(Closed(v, name, data))
    ensures Cut(name) in Files(Closed(v, name, data), d) && Files(Closed(v, name, data), d)[Cut(name)] == Clamp(data)
  {
    hide Sound, Names, Files, CStr;
    WriteKeepsSound(v, name, data);
    var c := Closed(v, name, data);
    WriteKeepsNames(v, name, data, Cut(name));
    FileIs(c, d, Cut(name));
    ContentWritten(d, c.dir[Target(v.dir, name)], Clamp(data));
  }

  /** What the map shows once fs_write is done. */
  function Written(dir: Directory, m: FileMap, name: Str, data: seq<Byte>): FileMap {
    if Lands(dir, name) then m[Cut(name) := Clamp(data)] else m
  }

  /** A completed fs_write is a write to the map, under the stored name, unless an earlier entry has that name. */
  lemma WriteRefines(v: Volume, name: Str, data: seq<Byte>, d: Disk, d': Disk)
    requires Sound(v) && Can(v, name)
    requires Spares(d, d', StartOf(v, name) as int) && StartOf(v, name) as int + SLOT <= LBA_LIMIT
    requires forall s :: 0 <= s < SectorCount(|Clamp(data)|) ==> d'[StartOf(v, name) as int + s] == DataSector(Clamp(data), s)
    ensures Sound(Closed(v, name, data))
    ensures Files(Closed(v, name, data), d') == Written(v.dir, Files(v, d), name, data)
  {
    hide Sound, Names, Files, CStr, Opened, Closed, Spares, Can, Lands;
    WriteKeepsSound(v, name, data);
    if Lands(v.dir, name) {
      FileWritten(v, name, data, d');
    }
    var m, m' := Files(v, d), Files(Closed(v, name, data), d');
    forall n: Str | !(n == Cut(name) && Lands(v.dir, name)) ensures (n in m' <==> n in m) && (n in m ==> m'[n] == m[n]) {
      if n == name {
        StoredShort(v, name);
        WriteKeepsNames(v, name, data, n);
        FileIs(v, d, n);
        FileIs(Closed(v, name, data), d', n);
      } else {
        OthersKept(v, name, data, d, d', n);
      }
    }
  }

  lemma StoredShort(v: Volume, name: Str)
    requires Sound(v) && Can(v, name) && !(name == Cut(name) && Lands(v.dir, name))
    ensures Index(v.dir, name) == MAX_FILES
  {
    if |name| >= NAME_LEN {
      NoLongNames(v, name);
    }
  }

  lemma {:induction false} NamesCounted(dir: Directory, n: nat)
    requires Distinct(dir) && n <= MAX_FILES
    ensures |NamesBelow(dir, n)| == UsedBelow(dir, n)
  {
    if n > 0 {
      hide CStr;
      NamesCounted(dir, n - 1);
      NamesBelowAre(dir, n - 1, CStr(dir[n - 1].name));
    }
  }

  /** fs_write refuses exactly when the name is new and 16 names exist. */
  lemma FullMeansSixteenNames(v: Volume, d: Disk, name: Str)
    requires Sound(v) && Distinct(v.dir)
    ensures Target(v.dir, name) == MAX_FILES <==> name !in Files(v, d) && |Files(v, d)| == MAX_FILES
    ensures |Files(v, d)| <= MAX_FILES
  {
    hide Sound, Distinct, Content;
    NamesAre(v.dir, name);
    NamesCounted(v.dir, MAX_FILES);
    forall n: Str ensures n in Files(v, d) <==> n in Names(v.dir) {
      NamesAre(v.dir, n);
    }
    assert Files(v, d).Keys == Names(v.dir);
    assert |Files(v, d)| == |Names(v.dir)|;
  }

  // ---- crashes -------------------------------------------------------------------

  lemma AfterOpen(v: Volume, d: Disk, name: Str)
    requires Can(v, name) && MountOf(d) == v
    ensures var d1 := Apply(d, OpenLog(v, name));
            && MountOf(d1) == v.(next := Opened(v, name).next)
            && (forall l: Lba :: l != SUPER_LBA ==> d1[l] == d[l])
  {
    if Index(v.dir, name) == MAX_FILES {
      var o := Opened(v, name);
      var w := SectorWrite(SUPER_LBA, SuperBytes(o));
      ApplyOne(d, [], w);
      assert OpenLog(v, name) == [] + [w];
      MountRoundTrip(d, o);
    }
  }

  /** The disk when power goes after `k` of the sector writes of fs_write. */
  function CutAfter(v: Volume, d: Disk, name: Str, data: seq<Byte>, k: nat): Disk
    requires Sound(v) && Can(v, name) && k <= |WriteLog(v, name, data)|
  {
    Apply(d, WriteLog(v, name, data)[..k])
  }

  /** How much of the data is on the disk by then. */
  function Landed(v: Volume, name: Str, data: seq<Byte>, k: nat): (n: nat)
    requires Can(v, name)
    ensures n <= SectorCount(|Clamp(data)|) <= SLOT
  {
    var n := SectorCount(|Clamp(data)|);
    var o := |OpenLog(v, name)|;
    if k <= o then 0 else if k <= o + n then k - o else n
  }

  lemma LogPrefix(v: Volume, name: Str, data: seq<Byte>, k: nat)
    requires Sound(v) && Can(v, name) && k <= |WriteLog(v, name, data)|
    ensures var log := WriteLog(v, name, data); var n := Landed(v, name, data, k);
            && DATA_LBA <= StartOf(v, name) as int <= LBA_LIMIT - SLOT
            && (0 < k < |log| ==> log[..k] == OpenLog(v, name) + DataWrites(StartOf(v, name), Clamp(data), n))
            && (k == |log| ==> log[..k] == OpenLog(v, name) + DataWrites(StartOf(v, name), Clamp(data), n)
                                           + [SectorWrite(DIR_LBA, DirBytes(Closed(v, name, data).dir))])
  {
    hide Sound, Closed, Opened, DataSector, SectorCount;
    WriteKeepsSound(v, name, data);
    var c := Clamp(data);
    var n := Landed(v, name, data, k);
    var w := DataWrites(StartOf(v, name), c, SectorCount(|c|));
    assert w[..n] == DataWrites(StartOf(v, name), c, n);
  }

  /** The sectors of a cut disk: data up to the cut in the file's own slot, everything else as before. */
  lemma CutSectors(v: Volume, d: Disk, name: Str, data: seq<Byte>, k: nat, l: Lba)
    requires Sound(v) && Can(v, name) && MountOf(d) == v && 0 < k <= |WriteLog(v, name, data)|
    ensures var start := StartOf(v, name) as int; var n := Landed(v, name, data, k);
            DATA_LBA <= l ==>
              CutAfter(v, d, name, data, k)[l] == if start <= l < start + n then DataSector(Clamp(data), l - start) else d[l]
    ensures l == SUPER_LBA || (l == DIR_LBA && k < |WriteLog(v, name, data)|) ==>
              CutAfter(v, d, name, data, k)[l] == Apply(d, OpenLog(v, name))[l]
    ensures l == DIR_LBA && k == |WriteLog(v, name, data)| ==>
              CutAfter(v, d, name, data, k)[l] == DirBytes(Closed(v, name, data).dir)
  {
    hide Sound, Closed, Opened, DataSector, SectorCount, MountOf, Can, WriteLog, DirBytes, Landed, Apply, OpenLog, DataWrites;
    LogPrefix(v, name, data, k);
    AfterOpen(v, d, name);
    var c, n, open := Clamp(data), Landed(v, name, data, k), OpenLog(v, name);
    var w := DataWrites(StartOf(v, name), c, n);
    ApplyBoth(d, open, w);
    ApplyData(Apply(d, open), StartOf(v, name), c, n, l);
    if k == |WriteLog(v, name, data)| {
      ApplyOne(d, open + w, SectorWrite(DIR_LBA, DirBytes(Closed(v, name, data).dir)));
    }
  }

  /** A remount after the cut sees the old directory until the last sector is written. */
  lemma CutMount(v: Volume, d: Disk, name: Str, data: seq<Byte>, k: nat)
    requires Sound(v) && Can(v, name) && MountOf(d) == v && k <= |WriteLog(v, name, data)|
    ensures MountOf(CutAfter(v, d, name, data, k)) ==
            if k == 0 then v else if k < |WriteLog(v, name, data)| then v.(next := Opened(v, name).next) else Closed(v, name, data)
  {
    hide Sound, Can, Closed, Opened, WriteLog, Landed, DirBytes, DirOf, Le, FromLe, OpenLog;
    if k > 0 {
      AfterOpen(v, d, name);
      CutSectors(v, d, name, data, k, SUPER_LBA);
      CutSectors(v, d, name, data, k, DIR_LBA);
      DirRoundTrip(Closed(v, name, data).dir);
      ClosedIs(v, name, data);
    }
  }

  lemma ClosedIs(v: Volume, name: Str, data: seq<Byte>)
    requires Can(v, name)
    ensures Closed(v, name, data) == v.(next := Opened(v, name).next, dir := Closed(v, name, data).dir)
  {
  }

  lemma CutSpares(v: Volume, d: Disk, name: Str, data: seq<Byte>, k: nat)
    requires Sound(v) && Can(v, name) && MountOf(d) == v && k <= |WriteLog(v, name, data)|
    ensures Spares(d, CutAfter(v, d, name, data, k), StartOf(v, name) as int)
  {
    hide Sound, Can, MountOf, WriteLog, StartOf;
    if k > 0 {
      forall l: Lba ensures DATA_LBA <= l && !(StartOf(v, name) as int <= l < StartOf(v, name) as int + SLOT) ==>
                              CutAfter(v, d, name, data, k)[l] == d[l]
      {
        CutSectors(v, d, name, data, k, l);
      }
    }
  }

  /** A file of the old directory reads the same from any disk that spares its slot. */
  lemma SparedFile(v: Volume, next: Word32, name: Str, d: Disk, d': Disk, n: Str)
    requires Sound(v) && Can(v, name) && n != name
    requires Spares(d, d', StartOf(v, name) as int)
    requires Sound(v.(next := next))
    ensures var m := Files(v, d); var m' := Files(v.(next := next), d'); (n in m' <==> n in m) && (n in m ==> m'[n] == m[n])
  {
    hide CStr, Names, Content, Spares, Sound, Can, StartOf;
    OtherEntry(v, name, n);
    FileIs(v, d, n);
    FileIs(v.(next := next), d', n);
    var i := Index(v.dir, n);
    if i < MAX_FILES {
      SlotApart(v, name, i);
      ContentSpared(d, d', v.dir[i], StartOf(v, name) as int);
    }
  }

  lemma OpenedNext(v: Volume, name: Str)
    requires Can(v, name) && Sound(v)
    ensures v.next as int <= Opened(v, name).next as int <= v.next as int + SLOT && Opened(v, name).next as int <= LBA_LIMIT
    ensures Sound(v.(next := Opened(v, name).next))
  {
  }

  lemma CutOthers(v: Volume, d: Disk, name: Str, data: seq<Byte>, k: nat, n: Str)
    requires Sound(v) && Can(v, name) && MountOf(d) == v && k < |WriteLog(v, name, data)|
    ensures CutSame(v, d, MountOf(CutAfter(v, d, name, data, k)), CutAfter(v, d, name, data, k), name, n)
  {
    hide Sound, WriteLog, MountOf, CStr, Spares, Closed, Opened, Files, Can;
    CutMount(v, d, name, data, k);
    CutSpares(v, d, name, data, k);
    OpenedNext(v, name);
    var d' := CutAfter(v, d, name, data, k);
    var w := MountOf(d');
    FileIs(v, d, n);
    FileIs(w, d', n);
    if n != name {
      SparedFile(v, w.next, name, d, d', n);
    }
  }

  ghost predicate CutSame(v: Volume, d: Disk, w: Volume, d': Disk, name: Str, n: Str) {
    && Sound(v) && Sound(w) && (n in Files(w, d') <==> n in Files(v, d))
    && (n in Files(v, d) && n != name ==> Files(w, d')[n] == Files(v, d)[n])
  }

  lemma CutComplete(v: Volume, d: Disk, name: Str, data: seq<Byte>)
    requires Sound(v) && Can(v, name) && MountOf(d) == v
    ensures var d' := CutAfter(v, d, name, data, |WriteLog(v, name, data)|); var w := Closed(v, name, data);
            MountOf(d') == w && Sound(w) && Files(w, d') == Written(v.dir, Files(v, d), name, data)
  {
    hide WriteLog, MountOf, Sound, Spares, Written, Closed, StartOf, Files, DataSector, SectorCount, Can, Landed;
    var k := |WriteLog(v, name, data)|;
    CutMount(v, d, name, data, k);
    CutSpares(v, d, name, data, k);
    WriteKeepsSound(v, name, data);
    AllLanded(v, name, data);
    var d' := CutAfter(v, d, name, data, k);
    forall s | 0 <= s < SectorCount(|Clamp(data)|)
      ensures d'[StartOf(v, name) as int + s] == DataSector(Clamp(data), s)
    {
      CutSectors(v, d, name, data, k, StartOf(v, name) as int + s);
    }
    WriteRefines(v, name, data, d, d');
  }

  lemma AllLanded(v: Volume, name: Str, data: seq<Byte>)
    requires Sound(v) && Can(v, name)
    ensures |WriteLog(v, name, data)| > 0
    ensures Landed(v, name, data, |WriteLog(v, name, data)|) == SectorCount(|Clamp(data)|) <= SLOT
  {
  }

  /**
   Crash safety, for every name. Wherever fs_write is cut, a remount finds a sound volume with at
   most one slot lost. Until the last sector is written the same files are there, and only the one
   being overwritten can differ; then the write is there whole.
   */
  lemma CrashSafe(v: Volume, d: Disk, name: Str, data: seq<Byte>, k: nat)
    requires Sound(v) && MountOf(d) == v && Can(v, name) && k <= |WriteLog(v, name, data)|
    ensures var d' := CutAfter(v, d, name, data, k); var w := MountOf(d');
            && Sound(w) && v.next as int <= w.next as int <= v.next as int + SLOT
            && (Packed(v.dir) ==> Packed(w.dir)) && (Distinct(v.dir) && |name| < NAME_LEN ==> Distinct(w.dir))
            && (k < |WriteLog(v, name, data)| ==>
                  && Files(w, d').Keys == Files(v, d).Keys
                  && forall n :: n in Files(v, d) && n != name ==> Files(w, d')[n] == Files(v, d)[n])
            && (k == |WriteLog(v, name, data)| ==> Files(w, d') == Written(v.dir, Files(v, d), name, data))
  {
    hide WriteLog, MountOf, CStr, Closed, Opened, Files, Spares, Sound, Distinct, Packed, Can, Written;
    CutMount(v, d, name, data, k);
    OpenedNext(v, name);
    ClosedIs(v, name, data);
    if Distinct(v.dir) && |name| < NAME_LEN {
      WriteKeepsDistinct(v, name, data);
    }
    if Packed(v.dir) {
      WriteKeepsPacked(v, name, data);
    }
    if k < |WriteLog(v, name, data)| {
      var d' := CutAfter(v, d, name, data, k);
      var m, m' := Files(v, d), Files(MountOf(d'), d');
      forall n: Str ensures (n in m' <==> n in m) && (n in m && n != name ==> m'[n] == m[n]) {
        CutOthers(v, d, name, data, k, n);
      }
    } else {
      CutComplete(v, d, name, data);
    }
  }

  // ---- overwriting in place ----------------------------------------------------------

  /** Byte b of the sectors that hold the data. */
  function Padded(c: seq<Byte>, b: nat): Byte {
    if b < |c| then c[b] else 0
  }

  /** The old length, k sectors of the new bytes, and old bytes after them. */
  function Torn(o: seq<Byte>, c: seq<Byte>, k: nat): (t: seq<Byte>)
    ensures |t| == |o|
  {
    seq(|o|, b requires 0 <= b < |o| => if b / SECTOR < k then Padded(c, b) else o[b])
  }

  /** The sectors written hold what was there before, or the two files differ in at most one sector. */
  ghost predicate TearProof(o: seq<Byte>, c: seq<Byte>) {
    || (forall b :: 0 <= b < |o| && b / SECTOR < SectorCount(|c|) ==> o[b] == Padded(c, b))
    || (|o| == |c| && exists j: nat :: DifferOnlyIn(o, c, j))
  }

  ghost predicate DifferOnlyIn(o: seq<Byte>, c: seq<Byte>, j: nat)
    requires |o| == |c|
  {
    forall b :: 0 <= b < |o| && o[b] != c[b] ==> b / SECTOR == j
  }

  predicate Whole(o: seq<Byte>, c: seq<Byte>, k: nat) {
    Torn(o, c, k) == o || Torn(o, c, k) == c
  }

  lemma TearProofIsWhole(o: seq<Byte>, c: seq<Byte>, k: nat)
    requires TearProof(o, c) && k <= SectorCount(|c|)
    ensures Whole(o, c, k)
  {
    hide SectorCount;
    var t := Torn(o, c, k);
    if j: nat :| |o| == |c| && DifferOnlyIn(o, c, j) {
      if j < k {
        assert t == c;
      } else {
        assert t == o;
      }
    } else {
      assert t == o;
    }
  }

  lemma TornBetween(o: seq<Byte>, c: seq<Byte>, x: nat, y: nat)
    requires |o| == |c| && y < |o| && x / SECTOR < y / SECTOR && o[x] != c[x] && o[y] != c[y]
    ensures x / SECTOR + 1 <= SectorCount(|c|) && !Whole(o, c, x / SECTOR + 1)
  {
    var t := Torn(o, c, x / SECTOR + 1);
    assert t[x] == c[x] && t[y] == o[y];
  }

  lemma WholeIsTearProof(o: seq<Byte>, c: seq<Byte>)
    requires forall k :: 1 <= k <= SectorCount(|c|) ==> Whole(o, c, k)
    ensures TearProof(o, c)
  {
    var n := SectorCount(|c|);
    if |o| != |c| {
      assert Whole(o, c, n);
      forall b | 0 <= b < |o| && b / SECTOR < n ensures o[b] == Padded(c, b) {
        assert Torn(o, c, n)[b] == o[b];
      }
    } else if x :| 0 <= x < |o| && o[x] != c[x] {
      forall y | 0 <= y < |o| && o[y] != c[y] ensures y / SECTOR == x / SECTOR {
        if x / SECTOR < y / SECTOR {
          TornBetween(o, c, x, y);
        } else if y / SECTOR < x / SECTOR {
          TornBetween(o, c, y, x);
        }
      }
      assert DifferOnlyIn(o, c, x / SECTOR);
    } else {
      assert DifferOnlyIn(o, c, 0);
    }
  }

  /** A cut while an existing file is overwritten leaves the metadata alone and the file torn at the cut. */
  lemma CutOverwrite(v: Volume, d: Disk, name: Str, data: seq<Byte>, k: nat)
    requires Sound(v) && MountOf(d) == v && Can(v, name) && name in Files(v, d) && k < |WriteLog(v, name, data)|
    ensures var d' := CutAfter(v, d, name, data, k);
            && MountOf(d') == v && name in Files(v, d') && Files(v, d')[name] == Torn(Files(v, d)[name], Clamp(data), k)
  {
    hide WriteLog, CStr, MountOf, DataSector, Landed, Sound, Closed, Files;
    var d' := CutAfter(v, d, name, data, k);
    FileIs(v, d, name);
    FileIs(v, d', name);
    SoundEntry(v, name);
    CutMount(v, d, name, data, k);
    var o, t := Files(v, d)[name], Files(v, d')[name];
    forall b | 0 <= b < |o| ensures t[b] == Torn(o, Clamp(data), k)[b] {
      CutByte(v, d, name, data, k, b);
    }
  }

  lemma CutByte(v: Volume, d: Disk, name: Str, data: seq<Byte>, k: nat, b: nat)
    requires Sound(v) && MountOf(d) == v && Can(v, name) && k < |WriteLog(v, name, data)|
    requires Index(v.dir, name) < MAX_FILES && b < v.dir[Index(v.dir, name)].size as int
    ensures v.dir[Index(v.dir, name)].size as int <= SLOT_BYTES && v.dir[Index(v.dir, name)].start as int <= LBA_LIMIT - SLOT
    ensures var e := v.dir[Index(v.dir, name)];
            Content(CutAfter(v, d, name, data, k), e)[b] == if b / SECTOR < k then Padded(Clamp(data), b) else Content(d, e)[b]
  {
    hide CStr, MountOf, Sound, Closed;
    SoundEntry(v, name);
    var l: Lba := v.dir[Index(v.dir, name)].start as int + b / SECTOR;
    if k == 0 {
      assert WriteLog(v, name, data)[..0] == [];
    } else {
      CutSectors(v, d, name, data, k, l);
    }
  }

  /** What a remount shows of the file is the old file or the new one. */
  ghost predicate OldOrNew(v: Volume, d: Disk, name: Str, data: seq<Byte>, k: nat)
    requires Sound(v) && Can(v, name) && name in Files(v, d) && k <= |WriteLog(v, name, data)|
  {
    var d' := CutAfter(v, d, name, data, k);
    var w := MountOf(d');
    Sound(w) && name in Files(w, d') && (Files(w, d')[name] == Files(v, d)[name] || Files(w, d')[name] == Clamp(data))
  }

  /** Overwriting in place is atomic exactly for the pairs of old and new contents that cannot tear. */
  lemma OverwriteIsAtomicIff(v: Volume, d: Disk, name: Str, data: seq<Byte>)
    requires Sound(v) && MountOf(d) == v && Can(v, name) && name in Files(v, d)
    ensures (forall k :: 0 <= k <= |WriteLog(v, name, data)| ==> OldOrNew(v, d, name, data, k))
            <==> TearProof(Files(v, d)[name], Clamp(data))
  {
    hide WriteLog, CStr, MountOf, Sound, Files, CutAfter, TearProof, Torn;
    var o, c, n := Files(v, d)[name], Clamp(data), SectorCount(|Clamp(data)|);
    OverwriteLog(v, d, name, data);
    forall k | 0 <= k <= n ensures OldOrNew(v, d, name, data, k) <==> Whole(o, c, k) {
      CutOverwrite(v, d, name, data, k);
    }
    CompleteIsNew(v, d, name, data);
    if TearProof(o, c) {
      forall k | 0 <= k <= |WriteLog(v, name, data)| ensures OldOrNew(v, d, name, data, k) {
        if k <= n {
          TearProofIsWhole(o, c, k);
        }
      }
    }
    if forall k :: 0 <= k <= |WriteLog(v, name, data)| ==> OldOrNew(v, d, name, data, k) {
      forall k | 1 <= k <= n ensures Whole(o, c, k) {
        assert OldOrNew(v, d, name, data, k);
      }
      WholeIsTearProof(o, c);
    }
  }

  lemma OverwriteLog(v: Volume, d: Disk, name: Str, data: seq<Byte>)
    requires Sound(v) && Can(v, name) && name in Files(v, d)
    ensures |WriteLog(v, name, data)| == SectorCount(|Clamp(data)|) + 1
  {
    FileIs(v, d, name);
  }

  lemma CompleteIsNew(v: Volume, d: Disk, name: Str, data: seq<Byte>)
    requires Sound(v) && MountOf(d) == v && Can(v, name) && name in Files(v, d)
    ensures OldOrNew(v, d, name, data, |WriteLog(v, name, data)|)
  {
    hide WriteLog, CStr, MountOf, Sound, Files, CutAfter;
    FileIs(v, d, name);
    if |name| >= NAME_LEN {
      NoLongNames(v, name);
    }
    CutComplete(v, d, name, data);
  }

  function Blank(magic: Word32, next: Word32): Volume {
    Volume(magic, next, seq(SECTOR - 8, i => 0), seq(MAX_FILES, i => ZeroEntry()))
  }

  lemma BlankIsSound(d: Disk)
    ensures var v := Blank(MAGIC, DATA_LBA); Sound(v) && Roomy(v) && Packed(v.dir) && Distinct(v.dir) && Files(v, d) == map[]
  {
    var v := Blank(MAGIC, DATA_LBA);
    NamesCounted(v.dir, MAX_FILES);
  }

  /** On any disk once formatted: 1024 zeros under "a", overwritten with 1024 ones, cut after one sector, are neither. */
  lemma OverwriteCanTear(raw: Disk) returns (v: Volume, d: Disk, zeros: seq<Byte>, ones: seq<Byte>)
    ensures Sound(v) && MountOf(d) == v && Can(v, [97])
    ensures zeros == seq(1024, i => 0) && ones == seq(1024, i => 1) && 1 < |WriteLog(v, [97], ones)|
    ensures [97] in Files(v, d) && Files(v, d)[[97]] == zeros
    ensures var d' := CutAfter(v, d, [97], ones, 1);
            && MountOf(d') == v && [97] in Files(v, d') && Files(v, d')[[97]] != zeros && Files(v, d')[[97]] != ones
  {
    hide MountOf, CStr, Sound, Files, CutAfter, WriteLog, Roomy, SuperBytes, DirBytes;
    zeros, ones := seq(1024, i => 0), seq(1024, i => 1);
    var b := Blank(MAGIC, DATA_LBA);
    var e := raw[SUPER_LBA := SuperBytes(b)][DIR_LBA := DirBytes(b.dir)];
    BlankIsSound(e);
    MountRoundTrip(raw, b);
    NamesAre(b.dir, [97]);
    WriteKeepsRoom(b, [97], zeros);
    CutComplete(b, e, [97], zeros);
    FileIs(b, e, [97]);
    v, d := Closed(b, [97], zeros), CutAfter(b, e, [97], zeros, |WriteLog(b, [97], zeros)|);
    FileIs(v, d, [97]);
    OverwriteLog(v, d, [97], ones);
    CutOverwrite(v, d, [97], ones, 1);
    var t := Torn(zeros, ones, 1);
    assert t[0] == 1 && t[512] == 0;
  }

  lemma SoundEntry(v: Volume, name: Str)
    requires Sound(v) && Index(v.dir, name) < MAX_FILES
    ensures var e := v.dir[Index(v.dir, name)];
            e.size as int <= SLOT_BYTES && DATA_LBA <= e.start as int <= LBA_LIMIT - SLOT && 0 in e.name
  {
  }

  // ---- many crashes ------------------------------------------------------------------

  /** A write, cut after at most `cut` sector writes, then a remount. */
  datatype Event = Event(name: Str, data: seq<Byte>, cut: nat)

  /** A disk, the map it should show, and the names overwritten in part since. */
  datatype Past = Past(disk: Disk, files: FileMap, torn: set<Str>)

  ghost predicate Upright(p: Past) {
    var v := MountOf(p.disk);
    && Sound(v) && Files(v, p.disk).Keys == p.files.Keys
    && (forall n :: n in p.files && n !in p.torn ==> Files(v, p.disk)[n] == p.files[n])
  }

  function Happen(p: Past, e: Event): Past {
    var v := MountOf(p.disk);
    if !Sound(v) || !Can(v, e.name) then p else
      var whole := |WriteLog(v, e.name, e.data)| <= e.cut;
      var k := if whole then |WriteLog(v, e.name, e.data)| else e.cut;
      Past(CutAfter(v, p.disk, e.name, e.data, k),
           if whole then MapPut(p.files, e.name, e.data) else p.files,
           if whole then p.torn - {e.name} else if e.name in p.files then p.torn + {e.name} else p.torn)
  }

  /** No event can hide a file: the used entries come first, or all names are short. */
  ghost predicate Orderly(d: Disk, es: seq<Event>) {
    Packed(MountOf(d).dir) || forall e :: e in es ==> |e.name| < NAME_LEN
  }

  lemma HappenKeeps(p: Past, e: Event)
    requires Upright(p) && (Packed(MountOf(p.disk).dir) || |e.name| < NAME_LEN)
    ensures Upright(Happen(p, e))
    ensures Packed(MountOf(p.disk).dir) ==> Packed(MountOf(Happen(p, e).disk).dir)
    ensures Distinct(MountOf(p.disk).dir) && |e.name| < NAME_LEN ==> Distinct(MountOf(Happen(p, e).disk).dir)
  {
    hide WriteLog, CStr, MountOf, Sound, Distinct, Packed, Files, Can, CutAfter, Lands;
    var v := MountOf(p.disk);
    if Can(v, e.name) {
      var whole := |WriteLog(v, e.name, e.data)| <= e.cut;
      CrashSafe(v, p.disk, e.name, e.data, if whole then |WriteLog(v, e.name, e.data)| else e.cut);
      NeverHides(v, p.disk, e.name);
    }
  }

  function Live(p: Past, es: seq<Event>): Past
    decreases |es|
  {
    if es == [] then p else Live(Happen(p, es[0]), es[1..])
  }

  lemma {:induction false} LiveKeeps(p: Past, es: seq<Event>)
    requires Upright(p) && Orderly(p.disk, es)
    ensures Upright(Live(p, es))
    ensures Packed(MountOf(p.disk).dir) ==> Packed(MountOf(Live(p, es).disk).dir)
    ensures Distinct(MountOf(p.disk).dir) && (forall e :: e in es ==> |e.name| < NAME_LEN) ==> Distinct(MountOf(Live(p, es).disk).dir)
    decreases |es|
  {
    hide Upright, Happen, MountOf, Packed, Distinct;
    if es != [] {
      HappenKeeps(p, es[0]);
      LiveKeeps(Happen(p, es[0]), es[1..]);
    }
  }

  /**
   Through any number of writes under any names, each cut anywhere and followed by a remount, the disk
   stays sound and shows exactly the completed writes, except for files that were being overwritten in place.
   */
  lemma CrashesLoseNothingWritten(d: Disk, es: seq<Event>, n: Str)
    requires Sound(MountOf(d)) && Orderly(d, es)
    ensures var q := Live(Past(d, Files(MountOf(d), d), {}), es); var v := MountOf(q.disk);
            && Sound(v) && (n in Files(v, q.disk) <==> n in q.files)
            && (n in q.files && n !in q.torn ==> Files(v, q.disk)[n] == q.files[n])
            && (Packed(MountOf(d).dir) ==> Packed(v.dir))
            && (Distinct(MountOf(d).dir) && (forall e :: e in es ==> |e.name| < NAME_LEN) ==> Distinct(v.dir))
  {
    hide Sound, Distinct, Packed, Files, MountOf, Happen, Live, Orderly;
    var p := Past(d, Files(MountOf(d), d), {});
    LiveKeeps(p, es);
    assert n in Live(p, es).files.Keys <==> n in Live(p, es).files;
  }
}
