/**
  What xfs_copy changes in a superblock that it writes to a target (copy/xfs_copy.c, sb_update_uuid),
  by the offsets of struct xfs_dsb (libxfs/xfs_format.h). The superblock starts at byte `at` of the
  buffer that holds the AG header.
*/
module Superblock {

  const UUID := 32
  const UUID_SIZE := 16

  /** sb_inprogress */
  const INPROGRESS := 126

  /** The last, lowest byte of sb_features_incompat. */
  const INCOMPAT := 219

  /** sb_crc */
  const CRC := 224
  const CRC_SIZE := 4

  /** sb_meta_uuid */
  const META_UUID := 248

  const MIN_SECTOR := 512

  /**
    The mounted source: whether it has checksums and a separate metadata UUID, its UUID, its sector
    size, and byte k of the checksum of a sector.
  */
  datatype Mount = Mount(crc: bool, metaUuid: bool, uuid: seq<bv8>, sectSize: nat, checksum: (seq<bv8>, nat) -> bv8) {
    predicate Valid() { |uuid| == UUID_SIZE && MIN_SECTOR <= sectSize }

    /** A copy with this UUID has to remember the UUID that all metadata is stamped with. */
    predicate Renames(target: seq<bv8>) { crc && !metaUuid && target != uuid }
  }

  /** XFS_SB_FEAT_INCOMPAT_META_UUID added to the feature bits. */
  function WithMetaUuid(v: bv8): (r: bv8)
    ensures r & 4 == 4 && r & 0xfb == v & 0xfb
  {
    v | 4
  }

  lemma {:induction false} FlagTwice(v: bv8)
    ensures WithMetaUuid(WithMetaUuid(v)) == WithMetaUuid(v)
  {
  }

  /** Data with some bytes replaced. */
  function Overlay(data: seq<bv8>, at: nat, bytes: seq<bv8>): (r: seq<bv8>)
    requires at + |bytes| <= |data|
    ensures |r| == |data|
    ensures forall k :: 0 <= k < |r| ==> r[k] == if at <= k < at + |bytes| then bytes[k - at] else data[k]
  {
    data[..at] + bytes + data[at + |bytes|..]
  }

  predicate UuidByte(r: int) { UUID <= r < UUID + UUID_SIZE }

  predicate MetaByte(r: int) { META_UUID <= r < META_UUID + UUID_SIZE }

  predicate CrcByte(mount: Mount, r: int) { mount.crc && CRC <= r < CRC + CRC_SIZE }

  /** Byte r of a superblock other than its checksum, from what it was. */
  function Updated(mount: Mount, uuid: seq<bv8>, renamed: bool, r: int, was: bv8): bv8
    requires mount.Valid() && |uuid| == UUID_SIZE
  {
    if UuidByte(r) then uuid[r - UUID]
    else if renamed && r == INCOMPAT then WithMetaUuid(was)
    else if renamed && MetaByte(r) then mount.uuid[r - META_UUID]
    else was
  }

  /** The sector with its checksum zeroed, which is what the checksum is computed from. */
  function Blank(sector: seq<bv8>): (r: seq<bv8>)
    requires MIN_SECTOR <= |sector|
    ensures |r| == |sector|
    ensures forall k :: 0 <= k < |r| ==> r[k] == if CRC <= k < CRC + CRC_SIZE then 0 else sector[k]
  {
    Overlay(sector, CRC, [0, 0, 0, 0])
  }

  /** The sector carries its own checksum. */
  ghost predicate Summed(mount: Mount, sector: seq<bv8>)
    requires MIN_SECTOR <= |sector|
  {
    forall k :: 0 <= k < CRC_SIZE ==> sector[CRC + k] == mount.checksum(Blank(sector), k)
  }

  predicate Inside(mount: Mount, data: seq<bv8>, at: nat) { mount.Valid() && at + mount.sectSize <= |data| }

  /** The buffer is as it was, but for what sb_update_uuid changes. */
  ghost predicate UpdatedFrom(mount: Mount, uuid: seq<bv8>, renamed: bool, at: nat, was: seq<bv8>, now: seq<bv8>)
    requires Inside(mount, was, at) && |uuid| == UUID_SIZE
  {
    && |now| == |was|
    && (forall k :: 0 <= k < |now| && !CrcByte(mount, k - at) ==>
          now[k] == Updated(mount, uuid, renamed, k - at, was[k]))
    && (mount.crc ==> Summed(mount, now[at..at + mount.sectSize]))
  }

  /** The same buffer serves one target after the other: what an earlier one needed stays. */
  lemma {:induction false} UpdatedAgain(mount: Mount, uuid1: seq<bv8>, uuid2: seq<bv8>, renamed1: bool, renamed2: bool,
                                        at: nat, was: seq<bv8>, mid: seq<bv8>, now: seq<bv8>)
    requires Inside(mount, was, at) && |uuid1| == |uuid2| == UUID_SIZE
    requires UpdatedFrom(mount, uuid1, renamed1, at, was, mid) && UpdatedFrom(mount, uuid2, renamed2, at, mid, now)
    ensures UpdatedFrom(mount, uuid2, renamed1 || renamed2, at, was, now)
  {
    forall k | 0 <= k < |now| && !CrcByte(mount, k - at)
      ensures now[k] == Updated(mount, uuid2, renamed1 || renamed2, k - at, was[k])
    {
      assert now[k] == Updated(mount, uuid2, renamed2, k - at, mid[k]);
      assert mid[k] == Updated(mount, uuid1, renamed1, k - at, was[k]);
      FlagTwice(was[k]);
    }
  }

  /** The superblock on its own. */
  lemma {:induction false} UpdatedSector(mount: Mount, uuid: seq<bv8>, renamed: bool, at: nat, was: seq<bv8>,
                                         now: seq<bv8>, a: seq<bv8>, b: seq<bv8>)
    requires Inside(mount, was, at) && |uuid| == UUID_SIZE && UpdatedFrom(mount, uuid, renamed, at, was, now)
    requires a == was[at..at + mount.sectSize] && b == now[at..at + mount.sectSize]
    ensures UpdatedFrom(mount, uuid, renamed, 0, a, b)
  {
    assert b[0..mount.sectSize] == b;
    forall k | 0 <= k < |b| && !CrcByte(mount, k - 0)
      ensures b[k] == Updated(mount, uuid, renamed, k - 0, a[k])
    {
      assert now[at + k] == Updated(mount, uuid, renamed, at + k - at, was[at + k]);
    }
  }

  /** xfs_update_cksum: afterwards the sector carries its checksum, and nothing else has changed. */
  method UpdateChecksum(mount: Mount, data: seq<bv8>, at: nat) returns (now: seq<bv8>)
    requires Inside(mount, data, at)
    ensures |now| == |data| && Summed(mount, now[at..at + mount.sectSize])
    ensures forall k :: 0 <= k < |now| && !(at + CRC <= k < at + CRC + CRC_SIZE) ==> now[k] == data[k]
  {
    var blank := Overlay(data, at + CRC, [0, 0, 0, 0]);
    var sector := blank[at..at + mount.sectSize];
    var sum := [mount.checksum(sector, 0), mount.checksum(sector, 1),
                mount.checksum(sector, 2), mount.checksum(sector, 3)];
    now := Overlay(blank, at + CRC, sum);
    assert Blank(now[at..at + mount.sectSize]) == sector;
  }

  /**
    sb_update_uuid: the UUID is in place; bit 2 of byte 219 is set and the source's UUID kept at 248 when
    a file system with checksums and without a metadata UUID gets another UUID, and not otherwise; all
    other bytes but the checksum are as they were.
  */
  method UpdateUuid(mount: Mount, data: seq<bv8>, at: nat, uuid: seq<bv8>) returns (now: seq<bv8>)
    requires Inside(mount, data, at) && |uuid| == UUID_SIZE
    ensures UpdatedFrom(mount, uuid, mount.Renames(uuid), at, data, now)
    ensures |now| == |data| && now[at + 32..at + 48] == uuid
    ensures if mount.crc && !mount.metaUuid && uuid != mount.uuid
            then now[at + 219] & 4 == 4 && now[at + 219] & 0xfb == data[at + 219] & 0xfb
                 && now[at + 248..at + 264] == mount.uuid
            else now[at + 219] == data[at + 219] && now[at + 248..at + 264] == data[at + 248..at + 264]
    ensures forall k :: 0 <= k < |now| && now[k] != data[k] ==>
              32 <= k - at < 48 || k - at == 219 || 248 <= k - at < 264 || (mount.crc && 224 <= k - at < 228)
  {
    now := data;
    if mount.crc && !mount.metaUuid && uuid != mount.uuid {
      now := RememberUuid(mount, data, at);
    }
    now := Overlay(now, at + UUID, uuid);
    assert forall k :: 0 <= k < |now| ==> now[k] == Updated(mount, uuid, mount.Renames(uuid), k - at, data[k]);
    if mount.crc {
      now := UpdateChecksum(mount, now, at);
    }
  }

  /** Sets the feature and the UUID that goes with it. */
  method RememberUuid(mount: Mount, data: seq<bv8>, at: nat) returns (now: seq<bv8>)
    requires Inside(mount, data, at)
    ensures |now| == |data|
    ensures forall k :: 0 <= k < |now| ==>
              now[k] == if k == at + INCOMPAT then WithMetaUuid(data[k])
                        else if MetaByte(k - at) then mount.uuid[k - at - META_UUID]
                        else data[k]
  {
    now := data[at + INCOMPAT := WithMetaUuid(data[at + INCOMPAT])];
    now := Overlay(now, at + META_UUID, mount.uuid);
  }

  /**
    A superblock that already has this UUID, and a right checksum if there are checksums, stays as it
    is: duplicating is exact.
  */
  lemma {:induction false} SameUuidKeeps(mount: Mount, at: nat, was: seq<bv8>, now: seq<bv8>)
    requires Inside(mount, was, at) && UpdatedFrom(mount, mount.uuid, false, at, was, now)
    requires was[at + UUID..at + UUID + UUID_SIZE] == mount.uuid
    requires mount.crc ==> Summed(mount, was[at..at + mount.sectSize])
    ensures now == was
  {
    forall k | 0 <= k < |now| && !CrcByte(mount, k - at)
      ensures now[k] == was[k]
    {
      if UuidByte(k - at) { assert was[k] == was[at + UUID..at + UUID + UUID_SIZE][k - at - UUID]; }
    }
    if mount.crc {
      var a, b := was[at..at + mount.sectSize], now[at..at + mount.sectSize];
      assert Blank(a) == Blank(b);
      forall k | 0 <= k < |now| && CrcByte(mount, k - at)
        ensures now[k] == was[k]
      {
        var i := k - at - CRC;
        assert a[CRC + i] == mount.checksum(Blank(a), i) && b[CRC + i] == mount.checksum(Blank(b), i);
      }
    }
  }
}
