/** PyroFS as the kernel runs it: metadata and a sector buffer in memory, updated in place, over a drive. */
module PyroFs {
  import opened Bytes
  import opened Fs

  /** One ATA command at a time. A failed write may or may not have reached the medium. */
  class Drive {
    var sectors: Disk
    var errors: nat
    ghost var log: seq<SectorWrite>
    /** The addresses of the commands that reported an error. */
    ghost var faults: seq<Lba>

    constructor (sectors: Disk)
      ensures this.sectors == sectors && errors == 0 && log == [] && faults == []
    {
      this.sectors := sectors;
      errors := 0;
      log, faults := [], [];
    }

    method Write(lba: Lba, data: Sector) returns (ok: bool)
      modifies this
      ensures errors == old(errors) + if ok then 0 else 1
      ensures faults == old(faults) + if ok then [] else [lba]
      ensures (sectors == old(sectors)[lba := data] && log == old(log) + [SectorWrite(lba, data)])
              || (!ok && sectors == old(sectors) && log == old(log))
    {
      var written: bool := *;
      ok := *;
      if ok || written {
        sectors := sectors[lba := data];
        log := log + [SectorWrite(lba, data)];
      }
      if !ok {
        errors, faults := errors + 1, faults + [lba];
      }
    }

    method Read(lba: Lba) returns (ok: bool, data: Sector)
      modifies this`errors, this`faults
      ensures errors == old(errors) + if ok then 0 else 1
      ensures faults == old(faults) + if ok then [] else [lba]
      ensures ok ==> data == sectors[lba]
    {
      ok := *;
      data := sectors[lba];
      if !ok {
        errors, faults := errors + 1, faults + [lba];
        data := *;
      }
    }
  }

  datatype Op = Write(name: Str, data: seq<Byte>) | Read(name: Str, max: Word32) | Remount
  datatype Reply = Status(r: int) | Data(bytes: seq<Byte>) | Done

  /** What the operations mean on a finite map. */
  function MapStep(m: FileMap, op: Op): (FileMap, Reply) {
    match op
    case Write(name, data) => var (m', r) := MapWrite(m, name, data); (m', Status(r))
    case Read(name, max) => (m, if name in m then Data(Prefix(m[name], max)) else Status(-1))
    case Remount => (m, Done)
  }

  function MapRun(m: FileMap, ops: seq<Op>): (FileMap, seq<Reply>) {
    if ops == [] then (m, []) else
      var (m1, replies) := MapRun(m, ops[..|ops| - 1]);
      var (m2, reply) := MapStep(m1, ops[|ops| - 1]);
      (m2, replies + [reply])
  }

  function Least(a: nat, b: nat): nat {
    if a <= b then a else b
  }

  lemma {:induction false} MapRunBoth(m: FileMap, a: seq<Op>, b: seq<Op>)
    ensures var (m1, ra) := MapRun(m, a); var (m2, rb) := MapRun(m1, b);
            MapRun(m, a + b) == (m2, ra + rb) && |ra| == |a| && |rb| == |b|
    decreases |b|
  {
    if b == [] {
      assert a + b == a && MapRun(m, a).1 + [] == MapRun(m, a).1;
      MapRunLength(m, a);
    } else {
      var n := |b| - 1;
      MapRunBoth(m, a, b[..n]);
      assert (a + b)[..|a + b| - 1] == a + b[..n];
      var (m1, ra) := MapRun(m, a);
      var (m2, rb) := MapRun(m1, b[..n]);
      var reply := MapStep(m2, b[n]).1;
      assert ra + rb + [reply] == ra + (rb + [reply]);
    }
  }

  lemma {:induction false} MapRunLength(m: FileMap, ops: seq<Op>)
    ensures |MapRun(m, ops).1| == |ops|
  {
    if ops != [] {
      MapRunLength(m, ops[..|ops| - 1]);
    }
  }

  lemma {:induction false} OthersLeaveIt(m: FileMap, ops: seq<Op>, name: Str)
    requires name in m && forall i :: 0 <= i < |ops| && ops[i].Write? ==> ops[i].name != name
    ensures var m' := MapRun(m, ops).0; name in m' && m'[name] == m[name]
  {
    if ops != [] {
      OthersLeaveIt(m, ops[..|ops| - 1], name);
    }
  }

  /**
   What is written is read back: a read returns the start of the last data whose write was granted, as much of it as
   a slot holds and the reader asks for, whatever else happened before, between and to other files.
   */
  lemma WriteThenRead(m: FileMap, before: seq<Op>, name: Str, data: seq<Byte>, between: seq<Op>, max: Word32)
    requires forall i :: 0 <= i < |between| && between[i].Write? ==> between[i].name != name
    ensures var ops := before + [Write(name, data)] + between + [Read(name, max)]; var replies := MapRun(m, ops).1;
            && |replies| == |ops| && replies[|before|] in {Status(0), Status(-1)}
            && (replies[|before|] == Status(0) ==> replies[|ops| - 1] == Data(data[..Least(Least(|data|, 16384), max)]))
  {
    hide Clamp, Prefix;
    var w, r := [Write(name, data)], [Read(name, max)];
    MapRunBoth(m, before, w);
    MapRunBoth(m, before + w, between);
    MapRunBoth(m, before + w + between, r);
    var m1 := MapRun(m, before).0;
    assert w[..0] == [] && r[..0] == [];
    if name in m1 || |m1| < MAX_FILES {
      OthersLeaveIt(MapRun(m, before + w).0, between, name);
      var c := Clamp(data);
      assert Prefix(c, max) == data[..Least(Least(|data|, 16384), max)];
    }
  }

  predicate Short(op: Op) {
    op.Remount? || |op.name| < NAME_LEN
  }

  /** A disk PyroFS may be started on: not formatted yet, or left sound. */
  ghost predicate Mountable(d: Disk) {
    var v := MountOf(d);
    v.magic == MAGIC ==> Sound(v) && Roomy(v)
  }

  ghost function FilesOn(d: Disk): FileMap
    requires Mountable(d)
  {
    var v := MountOf(d);
    if v.magic == MAGIC then Files(v, d) else map[]
  }

  class FileSystem {
    const drive: Drive
    var v: Volume
    var secbuf: Sector

    ghost predicate Valid()
      reads this
    {
      Sound(v) && Roomy(v)
    }

    /** fs_init at boot: load the metadata, format a disk without the magic. */
    constructor (drive: Drive)
      modifies drive
      ensures this.drive == drive
      ensures drive.errors >= old(drive.errors) && old(drive.faults) <= drive.faults
      ensures var d := old(MountOf(drive.sectors)); var bad := drive.faults[|old(drive.faults)|..];
              if d.magic != MAGIC || SUPER_LBA in bad
              then v == Blank(MAGIC, DATA_LBA) && Valid() && Reformatted(old(drive.sectors), v, drive.sectors)
              else v == (if DIR_LBA in bad then d.(dir := Blank(0, 0).dir) else d)
                   && (old(Mountable(drive.sectors)) ==> Sound(v)) && drive.sectors == old(drive.sectors) && drive.log == old(drive.log)
      ensures drive.errors == old(drive.errors) ==>
                && MountOf(drive.sectors) == v
                && (old(MountOf(drive.sectors)).magic == MAGIC ==> drive.sectors == old(drive.sectors) && drive.log == old(drive.log))
                && (old(MountOf(drive.sectors)).magic != MAGIC ==> Distinct(v.dir))
      ensures drive.errors == old(drive.errors) && old(Mountable(drive.sectors)) ==>
                Valid() && Files(v, drive.sectors) == old(FilesOn(drive.sectors))
    {
      hide Files, Names;
      this.drive := drive;
      v := Blank(0, 0);
      secbuf := ZeroSector();
      new;
      LoadMeta();
      EmptyDirIsSound(old(MountOf(drive.sectors)));
      if v.magic != MAGIC {
        Format();
      }
    }

    /** load_meta: each part that could be read comes from the disk; the other stays as it was in memory. */
    method LoadMeta()
      modifies this`v, drive
      ensures drive.sectors == old(drive.sectors) && drive.log == old(drive.log) && drive.errors >= old(drive.errors)
      ensures drive.errors == old(drive.errors) ==> v == MountOf(drive.sectors)
      ensures old(drive.faults) <= drive.faults
      ensures var bad := drive.faults[|old(drive.faults)|..]; var d := MountOf(drive.sectors);
              && v.dir == (if DIR_LBA in bad then old(v).dir else d.dir)
              && v == (if SUPER_LBA in bad then old(v) else d).(dir := v.dir)
    {
      var ok, s := drive.Read(SUPER_LBA);
      ghost var bad := if ok then [] else [SUPER_LBA];
      if ok {
        v := v.(magic := FromLe(s[..4]), next := FromLe(s[4..8]), pad := s[8..]);
      }
      ok, s := drive.Read(DIR_LBA);
      if ok {
        v := v.(dir := DirOf(s));
      }
      assert drive.faults[|old(drive.faults)|..] == bad + if ok then [] else [DIR_LBA];
    }

    method Format()
      modifies this`v, drive
      ensures v == Blank(MAGIC, DATA_LBA) && Valid() && drive.errors >= old(drive.errors)
      ensures drive.errors == old(drive.errors) ==> MountOf(drive.sectors) == v && Files(v, drive.sectors) == map[]
      ensures old(drive.faults) <= drive.faults && Reformatted(old(drive.sectors), v, drive.sectors)
    {
      v := Blank(MAGIC, DATA_LBA);
      var ok := drive.Write(SUPER_LBA, SuperBytes(v));
      ok := drive.Write(DIR_LBA, DirBytes(v.dir));
      BlankIsSound(drive.sectors);
      MountRoundTrip(old(drive.sectors), v);
    }

    /** The first used entry whose name strcmp finds equal. */
    method Find(name: Str) returns (i: nat)
      requires Sound(v)
      ensures i == Index(v.dir, name)
    {
      hide CStr, Strcmp;
      var c := name + [0];
      CStrIs(c, name);
      i := 0;
      while i < MAX_FILES
        invariant i <= MAX_FILES && forall j :: 0 <= j < i ==> !Named(v.dir[j], name)
      {
        var e := v.dir[i];
        if e.used != 0 {
          assert Placed(e, v.next) && c[|name|] == 0 && e.name[0..] == e.name && c[0..] == c;
          StrcmpIsEquality(e.name, c, 0);
          if Strcmp(e.name, c, 0) == 0 {
            return;
          }
        }
        i := i + 1;
      }
    }

    method FirstUnused() returns (k: nat)
      ensures k == FreeFrom(v.dir, 0)
    {
      k := 0;
      while k < MAX_FILES && v.dir[k].used != 0
        invariant 0 <= k <= MAX_FILES && forall j :: 0 <= j < k ==> v.dir[j].used != 0
      {
        k := k + 1;
      }
    }

    /** The sector loop of fs_write. */
    method WriteData(start: nat, src: seq<Byte>) returns (ok: bool)
      requires DATA_LBA <= start <= LBA_LIMIT - SLOT && |src| <= SLOT_BYTES
      modifies this`secbuf, drive
      ensures Spares(old(drive.sectors), drive.sectors, start)
      ensures forall l: Lba :: l < DATA_LBA ==> drive.sectors[l] == old(drive.sectors)[l]
      ensures drive.errors == old(drive.errors) + if ok then 0 else 1
      ensures if ok then drive.faults == old(drive.faults) else
                |drive.faults| == |old(drive.faults)| + 1 && old(drive.faults) < drive.faults
                && drive.faults[|old(drive.faults)|] >= DATA_LBA
      ensures ok ==> forall s :: 0 <= s < SectorCount(|src|) ==> drive.sectors[start + s] == DataSector(src, s)
      ensures ok ==> drive.log == old(drive.log) + DataWrites(start, src, SectorCount(|src|))
      ensures ok ==> drive.sectors == Apply(old(drive.sectors), DataWrites(start, src, SectorCount(|src|)))
    {
      hide DataSector, Apply;
      var nsec := SectorCount(|src|);
      var s := 0;
      assert DataWrites(start, src, 0) == [];
      ApplyNone(drive.sectors);
      while s < nsec
        invariant 0 <= s <= nsec && drive.errors == old(drive.errors) && drive.faults == old(drive.faults)
        invariant drive.log == old(drive.log) + DataWrites(start, src, s)
        invariant drive.sectors == Apply(old(drive.sectors), DataWrites(start, src, s))
        invariant forall l: Lba :: !(start <= l < start + s) ==> drive.sectors[l] == old(drive.sectors)[l]
        invariant forall t :: 0 <= t < s ==> drive.sectors[start + t] == DataSector(src, t)
      {
        var off := s * SECTOR;
        var chunk := if |src| > off then |src| - off else 0;
        chunk := if chunk > SECTOR then SECTOR else chunk;
        secbuf := ZeroSector();
        if chunk != 0 {
          secbuf := src[off..off + chunk] + secbuf[chunk..];
        }
        FilledIs(src, s, secbuf);
        DataWritesNext(start, src, s);
        ApplyOne(old(drive.sectors), DataWrites(start, src, s), SectorWrite(start + s, secbuf));
        ok := drive.Write(start + s, secbuf);
        if !ok {
          return;
        }
        s := s + 1;
      }
      ok := true;
    }

    /** The first part of fs_write: the entry to use, made and given a slot if the name is new. */
    method Open(name: Str) returns (k: nat)
      requires Valid()
      modifies this`v, drive
      ensures k == old(Target(v.dir, name)) && Valid() && drive.errors >= old(drive.errors)
      ensures drive.faults == old(drive.faults) || drive.faults == old(drive.faults) + [SUPER_LBA]
      ensures k == MAX_FILES ==> v == old(v) && unchanged(drive)
      ensures k < MAX_FILES ==>
                && old(Can(v, name)) && v == Opened(old(v), name)
                && Spares(old(drive.sectors), drive.sectors, StartOf(old(v), name) as int)
                && LowSectors(old(v), old(drive.sectors), name, drive.sectors)
                && drive.sectors[DIR_LBA] == old(drive.sectors)[DIR_LBA]
                && (drive.errors == old(drive.errors) ==>
                      drive.sectors == Apply(old(drive.sectors), OpenLog(old(v), name)) && drive.log == old(drive.log) + OpenLog(old(v), name))
    {
      hide Sound, Roomy, CStr, Apply, SuperBytes, Spares, LowSectors, IndexFrom, FreeFrom, Named;
      ghost var v0, d0, log0 := v, drive.sectors, drive.log;
      k := Find(name);
      if k == MAX_FILES {
        k := FirstUnused();
        if k == MAX_FILES {
          return;
        }
        WriteKeepsRoom(v0, name, []);
        var e := v.dir[k].(used := 1, name := CopyName(v.dir[k].name, name), start := v.next);
        v := v.(next := v.next as int + SLOT, dir := v.dir[k := e]);
        var _ := drive.Write(SUPER_LBA, SuperBytes(v));
      }
      WriteKeepsRoom(v0, name, []);
      WriteKeepsSound(v0, name, []);
      AfterSuper(v0, name, d0, drive.sectors, log0, drive.log, drive.errors == old(drive.errors));
    }

    /** Create or overwrite. fs_write does not notice an error on a metadata sector; one on a data sector gives -1. */
    method Write(name: Str, data: seq<Byte>) returns (r: int)
      requires Valid()
      modifies this, drive
      ensures Valid() && drive.errors >= old(drive.errors)
      ensures old(Target(v.dir, name)) == MAX_FILES ==> r == -1 && v == old(v) && unchanged(drive)
      ensures old(Target(v.dir, name)) < MAX_FILES ==> Wrote(old(v), old(drive.sectors), name, data, r, v, drive.sectors)
      ensures old(Target(v.dir, name)) < MAX_FILES && drive.errors == old(drive.errors) ==>
                r == 0 && drive.log == old(drive.log) + WriteLog(old(v), name, data)
                && drive.sectors == Apply(old(drive.sectors), WriteLog(old(v), name, data))
      ensures r == 0 || r == -1
      ensures r == -1 && old(Target(v.dir, name)) < MAX_FILES ==> drive.errors > old(drive.errors)
      ensures old(drive.faults) <= drive.faults
      ensures r == 0 <==> old(Target(v.dir, name)) < MAX_FILES && DataSafe(drive.faults[|old(drive.faults)|..])
    {
      hide Sound, Roomy, CStr, Apply, DataSector, DirBytes, Spares, LowSectors, Opened, OpenLog, Can, WriteLog, SectorCount, DataWrites, IndexFrom, FreeFrom, Named, UsedBelow;
      ghost var v0, d0 := v, drive.sectors;
      var k := Open(name);
      if k == MAX_FILES {
        return -1;
      }
      WriteKeepsRoom(v0, name, data);
      WriteKeepsSound(v0, name, data);
      ghost var d1, clean := drive.sectors, drive.errors == old(drive.errors);
      var size := if |data| > SLOT * SECTOR then SLOT * SECTOR else |data|;
      assert data[..size] == Clamp(data);
      var ok := WriteData(v.dir[k].start, data[..size]);
      SparesBoth(d0, d1, drive.sectors, StartOf(v0, name) as int);
      LowKept(v0, d0, name, d1, drive.sectors);
      if !ok {
        return -1;
      }
      ghost var d2 := drive.sectors;
      v := v.(dir := v.dir[k := v.dir[k].(size := size)]);
      ok := drive.Write(DIR_LBA, DirBytes(v.dir));
      SparesMeta(d0, d2, drive.sectors, StartOf(v0, name) as int);
      LowKept(v0, d0, name, d2, drive.sectors);
      LogWhole(v0, d0, name, data);
      r := 0;
    }

    /** Read at most `max` bytes of a file. */
    method Read(name: Str, max: Word32) returns (r: int, out: seq<Byte>)
      requires Sound(v)
      modifies this`secbuf, drive`errors, drive`faults
      ensures drive.errors == old(drive.errors) + if name in Files(v, drive.sectors) && r != 0 then 1 else 0
      ensures r == 0 || r == -1
      ensures r == 0 ==> name in Files(v, drive.sectors) && out == Prefix(Files(v, drive.sectors)[name], max)
      ensures r == 0 ==> var c := Files(v, drive.sectors)[name]; out == c[..Least(|c|, max)]
    {
      hide CStr, Names, Files;
      var k := Find(name);
      FileIs(v, drive.sectors, name);
      if k == MAX_FILES {
        return -1, [];
      }
      var e := v.dir[k];
      SoundEntry(v, name);
      ghost var c := Content(drive.sectors, e);
      var size := if e.size > max then max else e.size;
      var nsec := (size as int + 511) / SECTOR;
      out := [];
      var s := 0;
      while s < nsec
        invariant 0 <= s <= nsec && drive.errors == old(drive.errors)
        invariant |out| == if s * SECTOR < size as int then s * SECTOR else size as int
        invariant forall j :: 0 <= j < |out| ==> out[j] == c[j]
      {
        var ok;
        ok, secbuf := drive.Read(e.start as int + s);
        if !ok {
          return -1, [];
        }
        var off := s * SECTOR;
        var chunk := if size as int > off then size as int - off else 0;
        chunk := if chunk > SECTOR then SECTOR else chunk;
        forall j | 0 <= j < chunk ensures secbuf[j] == c[off + j] {
          assert (off + j) / SECTOR == s && (off + j) % SECTOR == j;
        }
        out := out + secbuf[..chunk];
        s := s + 1;
      }
      assert out == Prefix(c, max);
      r := 0;
    }

    /** One operation of an error-free run is one step of the map. */
    method Do(op: Op) returns (reply: Reply)
      requires Valid() && Distinct(v.dir) && Short(op) && !op.Remount? && MountOf(drive.sectors) == v
      modifies this, drive
      ensures Valid() && Distinct(v.dir) && drive.errors >= old(drive.errors)
      ensures drive.errors == old(drive.errors) ==> MountOf(drive.sectors) == v
      ensures drive.errors == old(drive.errors) ==> (Files(v, drive.sectors), reply) == MapStep(old(Files(v, drive.sectors)), op)
    {
      hide CStr, Files, Sound, Distinct, Roomy, MountOf, Wrote, WriteLog, Apply;
      ghost var v0, d0 := v, drive.sectors;
      match op {
        case Read(name, max) =>
          var r, out := Read(name, max);
          reply := if r == 0 then Data(out) else Status(r);
        case Write(name, data) =>
          var r := Write(name, data);
          reply := Status(r);
          FullMeansSixteenNames(v0, d0, name);
          if Target(v0.dir, name) < MAX_FILES {
            WroteMeans(v0, d0, name, data, r, v, drive.sectors);
            if drive.errors == old(drive.errors) {
              WholeMount(v0, d0, name, data);
            }
          }
      }
    }
  }

  /** Only the two metadata sectors may differ, and each of them is as before or as the volume has it. */
  ghost predicate Reformatted(d: Disk, v: Volume, d': Disk) {
    && (forall l: Lba :: l != SUPER_LBA && l != DIR_LBA ==> d'[l] == d[l])
    && (d'[SUPER_LBA] == d[SUPER_LBA] || d'[SUPER_LBA] == SuperBytes(v))
    && (d'[DIR_LBA] == d[DIR_LBA] || d'[DIR_LBA] == DirBytes(v.dir))
  }

  lemma EmptyDirIsSound(v: Volume)
    ensures v.magic == MAGIC && Sound(v) ==> Sound(v.(dir := Blank(0, 0).dir))
  {
  }

  /** The effect of an fs_write that found an entry, whatever the drive reported. */
  ghost predicate Wrote(v: Volume, d: Disk, name: Str, data: seq<Byte>, r: int, v': Volume, d': Disk) {
    && Can(v, name) && (r == 0 || r == -1)
    && StartOf(v, name) as int + SLOT <= LBA_LIMIT
    && v' == (if r == 0 then Closed(v, name, data) else Opened(v, name))
    && Spares(d, d', StartOf(v, name) as int) && LowSectors(v, d, name, d')
    && (d'[DIR_LBA] == d[DIR_LBA] || (r == 0 && d'[DIR_LBA] == DirBytes(v'.dir)))
    && (r == 0 ==> forall s :: 0 <= s < SectorCount(|Clamp(data)|) ==> d'[StartOf(v, name) as int + s] == DataSector(Clamp(data), s))
  }

  /** None of these errors was on a data sector. */
  ghost predicate DataSafe(faults: seq<Lba>) {
    forall i :: 0 <= i < |faults| ==> faults[i] < DATA_LBA
  }

  /** Below the directory only the superblock may change, and only to give a new name its slot. */
  ghost predicate LowSectors(v: Volume, d: Disk, name: Str, d': Disk)
    requires Can(v, name)
  {
    && (forall l: Lba :: l < SUPER_LBA ==> d'[l] == d[l])
    && (d'[SUPER_LBA] == d[SUPER_LBA] || d'[SUPER_LBA] == SuperBytes(Opened(v, name)))
  }

  /** In terms of files: the map is updated; after a failed data write, only the stored name is in doubt. */
  lemma WroteMeans(v: Volume, d: Disk, name: Str, data: seq<Byte>, r: int, v': Volume, d': Disk)
    requires Sound(v) && Wrote(v, d, name, data, r, v', d')
    ensures Sound(v') && Can(v, name) && (r == 0 ==> v' == Closed(v, name, data))
    ensures r == 0 ==> Files(v', d') == Written(v.dir, Files(v, d), name, data)
    ensures r == -1 ==> forall n :: n in Files(v, d) && n != name && !(n == Cut(name) && Lands(v.dir, name)) ==>
                                      n in Files(v', d') && Files(v', d')[n] == Files(v, d)[n]
    ensures Distinct(v.dir) && |name| < NAME_LEN ==>
              Distinct(v'.dir) && (r == 0 ==> (Files(v', d'), 0) == MapWrite(Files(v, d), name, data))
  {
    hide CStr, Files, Sound, Distinct, Spares, Opened, Closed, DataSector, SectorCount;
    WriteKeepsSound(v, name, data);
    if r == 0 {
      WriteRefines(v, name, data, d, d');
    } else {
      forall n | n in Files(v, d) && n != name && !(n == Cut(name) && Lands(v.dir, name))
        ensures n in Files(v', d') && Files(v', d')[n] == Files(v, d)[n]
      {
        OthersKept(v, name, data, d, d', n);
      }
    }
    if Distinct(v.dir) && |name| < NAME_LEN {
      FullMeansSixteenNames(v, d, name);
      WriteKeepsDistinct(v, name, data);
      NeverHides(v, d, name);
    }
  }

  lemma WholeMount(v: Volume, d: Disk, name: Str, data: seq<Byte>)
    requires Sound(v) && Can(v, name) && MountOf(d) == v
    ensures MountOf(Apply(d, WriteLog(v, name, data))) == Closed(v, name, data)
  {
    hide Sound, Can, MountOf, Apply, Closed;
    var log := WriteLog(v, name, data);
    assert log[..|log|] == log;
    CutMount(v, d, name, data, |log|);
  }

  lemma SparesBoth(d: Disk, d1: Disk, d2: Disk, start: int)
    requires Spares(d, d1, start) && Spares(d1, d2, start)
    ensures Spares(d, d2, start)
  {
  }

  lemma LowKept(v: Volume, d: Disk, name: Str, d1: Disk, d2: Disk)
    requires Can(v, name) && LowSectors(v, d, name, d1) && forall l: Lba :: l < DIR_LBA ==> d2[l] == d1[l]
    ensures LowSectors(v, d, name, d2)
  {
  }

  lemma SparesMeta(d: Disk, d1: Disk, d2: Disk, start: int)
    requires Spares(d, d1, start) && forall l: Lba :: l >= DATA_LBA ==> d2[l] == d1[l]
    ensures Spares(d, d2, start)
  {
  }

  lemma AfterSuper(v: Volume, name: Str, d: Disk, d1: Disk, log: seq<SectorWrite>, log1: seq<SectorWrite>, clean: bool)
    requires Can(v, name)
    requires if Index(v.dir, name) < MAX_FILES then d1 == d && log1 == log else
               || (d1 == d[SUPER_LBA := SuperBytes(Opened(v, name))] && log1 == log + OpenLog(v, name))
               || (!clean && d1 == d)
    ensures Spares(d, d1, StartOf(v, name) as int) && LowSectors(v, d, name, d1) && d1[DIR_LBA] == d[DIR_LBA]
    ensures clean ==> d1 == Apply(d, OpenLog(v, name)) && log1 == log + OpenLog(v, name)
  {
    hide SuperBytes, CStr;
    if Index(v.dir, name) == MAX_FILES {
      ApplyOne(d, [], OpenLog(v, name)[0]);
      assert [] + [OpenLog(v, name)[0]] == OpenLog(v, name);
    }
  }

  lemma LogWhole(v: Volume, d: Disk, name: Str, data: seq<Byte>)
    requires Sound(v) && Can(v, name)
    ensures var w := DataWrites(StartOf(v, name), Clamp(data), SectorCount(|Clamp(data)|));
            var last := SectorWrite(DIR_LBA, DirBytes(Closed(v, name, data).dir));
            && WriteLog(v, name, data) == OpenLog(v, name) + w + [last]
            && Apply(d, WriteLog(v, name, data)) == Apply(Apply(d, OpenLog(v, name)), w)[DIR_LBA := last.data]
  {
    hide Apply, Opened, Closed, DirBytes, SuperBytes, DataSector, SectorCount, Sound, Can;
    WriteKeepsSound(v, name, data);
    var w := DataWrites(StartOf(v, name), Clamp(data), SectorCount(|Clamp(data)|));
    ApplyBoth(d, OpenLog(v, name), w);
    ApplyOne(d, OpenLog(v, name) + w, SectorWrite(DIR_LBA, DirBytes(Closed(v, name, data).dir)));
  }

  lemma ApplyNone(d: Disk)
    ensures Apply(d, []) == d
  {
  }

  lemma FilledIs(src: seq<Byte>, s: nat, b: Sector)
    requires var off := s * SECTOR;
             forall k :: 0 <= k < SECTOR ==> b[k] == if off + k < |src| then src[off + k] else 0
    ensures b == DataSector(src, s)
  {
  }

  /**
   A successful fs_write can be read back by its name if and only if the name has under 20 characters:
   a longer one is stored cut to 19 and never found, so each write of it takes another entry.
   */
  lemma ReadableIffShort(v: Volume, name: Str, data: seq<Byte>, d: Disk)
    requires Sound(v) && Can(v, name)
    ensures Sound(Closed(v, name, data))
    ensures name in Files(Closed(v, name, data), d) <==> |name| < NAME_LEN
    ensures |name| >= NAME_LEN ==> UsedBelow(Closed(v, name, data).dir, MAX_FILES) == UsedBelow(v.dir, MAX_FILES) + 1
  {
    WriteKeepsSound(v, name, data);
    var o, c, k := Opened(v, name), Closed(v, name, data), Target(v.dir, name);
    FileIs(c, d, name);
    if |name| < NAME_LEN {
      assert Named(c.dir[k], name);
    } else {
      NoLongNames(c, name);
      NoLongNames(v, name);
      PutUsed(v.dir, k, o.dir[k], MAX_FILES);
      PutUsed(o.dir, k, c.dir[k], MAX_FILES);
    }
  }

  /** On a blank volume: a file written as twenty letters is not found again. */
  lemma LongNameIsLost(d: Disk, data: seq<Byte>)
    ensures var v := Blank(MAGIC, DATA_LBA); var name := seq(NAME_LEN, i => 97);
            && Sound(v) && Can(v, name) && Sound(Closed(v, name, data))
            && name !in Files(Closed(v, name, data), d) && Cut(name) in Files(Closed(v, name, data), d)
  {
    hide CStr;
    var v, name: Str := Blank(MAGIC, DATA_LBA), seq(NAME_LEN, i => 97);
    BlankIsSound(d);
    WriteKeepsRoom(v, name, data);
    ReadableIffShort(v, name, data, d);
    WriteKeepsNames(v, name, data, Cut(name));
    FileIs(Closed(v, name, data), d, Cut(name));
  }

  lemma PrefixOfClamp(data: seq<Byte>, max: nat)
    ensures Prefix(Clamp(data), max) == data[..Least(Least(|data|, 16384), max)]
  {
  }

  /** What a granted write under a short name leaves to be read. */
  lemma WroteShort(v: Volume, d: Disk, name: Str, data: seq<Byte>, v': Volume, d': Disk)
    requires Sound(v) && |name| < NAME_LEN && Wrote(v, d, name, data, 0, v', d')
    ensures Sound(v') && name in Files(v', d') && Files(v', d')[name] == Clamp(data)
  {
    hide CStr, Files, Sound, Wrote, Clamp, Names, Lands;
    WroteMeans(v, d, name, data, 0, v', d');
    NeverHides(v, d, name);
  }

  lemma FullDirectory(v: Volume, d: Disk, name: Str)
    requires Sound(v) && Target(v.dir, name) == MAX_FILES
    ensures name !in Files(v, d) && forall i :: 0 <= i < 16 ==> v.dir[i].used != 0
  {
    hide Sound, CStr;
    FileIs(v, d, name);
  }

  /** fs_write and then fs_read of a short name on the disk itself: the bytes come back. */
  method WriteReadBack(fs: FileSystem, name: Str, data: seq<Byte>, max: Word32) returns (r: int, out: seq<Byte>)
    requires fs.Valid() && |name| < 20
    modifies fs, fs.drive
    ensures fs.Valid() && r in {0, -1}
    ensures r == 0 ==> out == data[..Least(Least(|data|, 16384), max)]
    ensures r == -1 && fs.drive.errors == old(fs.drive.errors) ==>
              name !in old(Files(fs.v, fs.drive.sectors)) && forall i :: 0 <= i < 16 ==> old(fs.v).dir[i].used != 0
  {
    hide CStr, Files, Sound, Roomy, Wrote, WriteLog, Apply, Clamp, Prefix, Names, Lands, DataSafe, Target, Index, UsedBelow;
    ghost var v0, d0 := fs.v, fs.drive.sectors;
    r := fs.Write(name, data);
    out := [];
    if r == 0 {
      WroteShort(v0, d0, name, data, fs.v, fs.drive.sectors);
      PrefixOfClamp(data, max);
      r, out := fs.Read(name, max);
    } else if Target(v0.dir, name) == MAX_FILES {
      FullDirectory(v0, d0, name);
    }
  }

  /** Over any error-free run of writes, reads and remounts with short names, PyroFS answers as the map does. */
  method Run(drive: Drive, ops: seq<Op>) returns (replies: seq<Reply>)
    requires Mountable(drive.sectors) && (MountOf(drive.sectors).magic == MAGIC ==> Distinct(MountOf(drive.sectors).dir))
    requires forall i :: 0 <= i < |ops| ==> Short(ops[i])
    modifies drive
    ensures drive.errors == old(drive.errors) ==>
              && Mountable(drive.sectors)
              && (FilesOn(drive.sectors), replies) == MapRun(old(FilesOn(drive.sectors)), ops)
  {
    hide Files, Sound, Distinct, Roomy, MountOf;
    var before := drive.errors;
    ghost var m := FilesOn(drive.sectors);
    var fs := new FileSystem(drive);
    replies := [];
    var i := 0;
    while i < |ops| && drive.errors == before
      invariant 0 <= i <= |ops| && fs.drive == drive && drive.errors >= before && fresh(fs)
      invariant drive.errors == before ==> fs.Valid() && Distinct(fs.v.dir) && MountOf(drive.sectors) == fs.v
      invariant drive.errors == before ==> (Files(fs.v, drive.sectors), replies) == MapRun(m, ops[..i])
    {
      var reply := Done;
      if ops[i].Remount? {
        SoundMagic(fs.v);
        fs := new FileSystem(drive);
      } else {
        reply := fs.Do(ops[i]);
      }
      replies := replies + [reply];
      assert ops[..i + 1][..i] == ops[..i];
      i := i + 1;
    }
    assert ops[..|ops|] == ops;
    if drive.errors == before {
      SoundMagic(fs.v);
    }
  }

  lemma SoundMagic(v: Volume)
    requires Sound(v)
    ensures v.magic == MAGIC
  {
  }
}
