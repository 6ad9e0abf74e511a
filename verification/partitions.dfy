/**
 * The partition record and the partition store an asset (or image) keeps:
 * a slice of `UploadPartition` values searched linearly by id, filled with
 * bytes read positionally from the asset's open file.
 */
module Partitions {
  import opened Wrappers
  import opened Errors

  newtype byte = b: int | 0 <= b < 0x100

  /** Go's uint64, the type of the byte offsets. */
  type u64 = x: int | 0 <= x < 0x1_0000_0000_0000_0000

  /** The first value an int64 cannot hold; file sizes and offsets are int64. */
  const Int64Limit: int := 0x8000_0000_0000_0000

  /** The contents of an open file. */
  type File = s: seq<byte> | |s| < Int64Limit witness []

  /**
   * A segment of the file uploaded on its own. `url` comes from the metadata
   * response, `eTag` from the upload response; `contents` stands for the
   * reader over the bytes `[startByte, endByte)` (empty while unset).
   */
  datatype UploadPartition = UploadPartition(
    id: int,
    url: string,
    eTag: string,
    startByte: u64,
    endByte: u64,
    contents: seq<byte>)

  /** Go's `int64(x)` conversion of a uint64: values from 2^63 up wrap to negatives. */
  function ToInt64(x: u64): (r: int)
    ensures -Int64Limit <= r < Int64Limit
    ensures r % 0x1_0000_0000_0000_0000 == x
  {
    if x < Int64Limit then x else x - 0x1_0000_0000_0000_0000
  }

  /** What os.File.ReadAt reports: the count read, the bytes, and whether it returned an error. */
  datatype ReadResult = ReadResult(n: nat, data: seq<byte>, failed: bool)

  /**
   * os.File.ReadAt of `len` bytes at `off`: a negative offset is an error,
   * an empty buffer reads nothing without error, and a read that reaches
   * the end of the file early returns the short count with io.EOF.
   */
  function ReadAt(file: File, off: int, len: nat): (r: ReadResult)
    ensures r.failed <==> off < 0 || (len > 0 && off + len > |file|)
    ensures !r.failed ==> r.n == len && |r.data| == len
    ensures !r.failed && len > 0 ==> r.data == file[off..off + len]
    ensures r.failed ==> r.n < len || off < 0
  {
    if off < 0 then ReadResult(0, [], true)
    else if len == 0 then ReadResult(0, [], false)
    else if off + len <= |file| then ReadResult(len, file[off..off + len], false)
    else if off < |file| then ReadResult(|file| - off, file[off..], true)
    else ReadResult(0, [], true)
  }

  /** The ids of the store, in store order (`PartitionIDs` / `GetPartitionIDs`). */
  function PartitionIDs(parts: seq<UploadPartition>): (ids: seq<int>)
    ensures |ids| == |parts|
    ensures forall i | 0 <= i < |parts| :: ids[i] == parts[i].id
  {
    if |parts| == 0 then [] else [parts[0].id] + PartitionIDs(parts[1..])
  }

  /** The position of the first entry with the given id: the linear scan both lookups share. */
  function IndexOf(parts: seq<UploadPartition>, id: int): (r: Option<nat>)
    ensures r.Some? ==> r.value < |parts| && parts[r.value].id == id
    ensures r.Some? ==> forall k | 0 <= k < r.value :: parts[k].id != id
    ensures r.None? ==> forall k | 0 <= k < |parts| :: parts[k].id != id
  {
    if |parts| == 0 then None
    else if parts[0].id == id then Some(0)
    else match IndexOf(parts[1..], id)
      case None => None
      case Some(k) => Some(k + 1)
  }

  /** `Partition` / `GetPartition`: the first stored partition with the id, else an error. */
  function Partition(parts: seq<UploadPartition>, id: int): (r: Result<UploadPartition, Error>)
    ensures r.Success? <==> id in PartitionIDs(parts)
    ensures r.Success? ==> r.value.id == id
    ensures r.Success? ==>
              exists j | 0 <= j < |parts| :: parts[j] == r.value && forall k | 0 <= k < j :: parts[k].id != id
    ensures r.Failure? ==> r.error == PartitionNotFound(id)
  {
    match IndexOf(parts, id)
    case Some(j) =>
      assert PartitionIDs(parts)[j] == id;
      Success(parts[j])
    case None => Failure(PartitionNotFound(id))
  }

  /** The partition with its contents read from the file, as SetPartition stores it. */
  function Filled(file: File, p: UploadPartition): (q: UploadPartition)
    requires p.startByte <= p.endByte <= |file|
  {
    p.(contents := file[p.startByte..p.endByte])
  }

  /** The store after a SetPartition call and the error it returned (Go mutates the store in place). */
  datatype SetResult = SetResult(parts: seq<UploadPartition>, err: Option<Error>)

  /**
   * `SetPartition`: reject a non-positive id, read `[startByte, endByte)`
   * from the file (an error or an empty read rejects), then replace the
   * entry with that id in place or append a new one.
   */
  function SetPartition(file: File, parts: seq<UploadPartition>, p: UploadPartition): (r: SetResult)
    ensures r.err.Some? ==> r.parts == parts
    ensures r.err.None? <==> p.id >= 1 && p.startByte < p.endByte <= |file|
    ensures p.id < 1 ==> r.err == Some(NonPositiveID(p.id))
    ensures p.id >= 1 && p.startByte == p.endByte < Int64Limit ==> r.err == Some(NoBytesRead)
    ensures r.err.None? && p.id in PartitionIDs(parts) ==>
              && |r.parts| == |parts|
              && exists j | 0 <= j < |parts| ::
                   && parts[j].id == p.id
                   && (forall k | 0 <= k < j :: parts[k].id != p.id)
                   && r.parts == parts[j := Filled(file, p)]
    ensures r.err.None? && p.id !in PartitionIDs(parts) ==> r.parts == parts + [Filled(file, p)]
  {
    if p.id < 1 then SetResult(parts, Some(NonPositiveID(p.id)))
    else if p.endByte < p.startByte then SetResult(parts, Some(InvertedRange))
    else
      var read := ReadAt(file, ToInt64(p.startByte), p.endByte - p.startByte);
      if read.failed then SetResult(parts, Some(ReadFailed))
      else if read.n < 1 then SetResult(parts, Some(NoBytesRead))
      else
        assert ToInt64(p.startByte) == p.startByte;
        var q := p.(contents := read.data);
        assert q == Filled(file, p);
        match IndexOf(parts, q.id)
        case Some(j) =>
          assert PartitionIDs(parts)[j] == p.id;
          SetResult(parts[j := q], None)
        case None => SetResult(parts + [q], None)
  }

  /** An entry as a successful SetPartition leaves it. */
  predicate WellStored(file: File, q: UploadPartition)
  {
    && q.id >= 1
    && q.startByte < q.endByte <= |file|
    && q.contents == file[q.startByte..q.endByte]
  }

  /** The store invariant: every entry well stored, and ids unique. */
  predicate Valid(file: File, parts: seq<UploadPartition>)
  {
    && (forall i | 0 <= i < |parts| :: WellStored(file, parts[i]))
    && (forall i, j | 0 <= i < j < |parts| :: parts[i].id != parts[j].id)
  }

  /** SetPartition keeps ids unique and positive and every entry's contents read from the file. */
  lemma SetPartitionPreservesValid(file: File, parts: seq<UploadPartition>, p: UploadPartition)
    requires Valid(file, parts)
    ensures Valid(file, SetPartition(file, parts, p).parts)
  {
    var r := SetPartition(file, parts, p);
    if r.err.None? {
      var q := Filled(file, p);
      assert WellStored(file, q);
      if p.id in PartitionIDs(parts) {
        var j :| 0 <= j < |parts| && parts[j].id == p.id && r.parts == parts[j := q];
        forall a, b | 0 <= a < b < |r.parts|
          ensures r.parts[a].id != r.parts[b].id
        {
          if a != j && b != j {
            assert r.parts[a] == parts[a] && r.parts[b] == parts[b];
          } else if a == j {
            assert parts[b].id != parts[j].id;
          } else {
            assert parts[a].id != parts[j].id;
          }
        }
      } else {
        forall a, b | 0 <= a < b < |r.parts|
          ensures r.parts[a].id != r.parts[b].id
        {
          if b == |parts| {
            assert PartitionIDs(parts)[a] == parts[a].id;
          }
        }
      }
    }
  }

  /** After a successful SetPartition, looking the id up returns the partition with its bytes. */
  lemma SetThenGet(file: File, parts: seq<UploadPartition>, p: UploadPartition)
    requires SetPartition(file, parts, p).err.None?
    ensures p.startByte < p.endByte <= |file|
    ensures Partition(SetPartition(file, parts, p).parts, p.id) == Success(Filled(file, p))
  {
    var r := SetPartition(file, parts, p);
    var q := Filled(file, p);
    if p.id in PartitionIDs(parts) {
      var j :| 0 <= j < |parts| && parts[j].id == p.id
               && (forall k | 0 <= k < j :: parts[k].id != p.id) && r.parts == parts[j := q];
      assert IndexOf(r.parts, p.id) == Some(j) by {
        IndexOfFirst(r.parts, p.id, j);
      }
    } else {
      assert IndexOf(r.parts, p.id) == Some(|parts|) by {
        forall k | 0 <= k < |parts| ensures r.parts[k].id != p.id {
          assert PartitionIDs(parts)[k] == parts[k].id;
        }
        IndexOfFirst(r.parts, p.id, |parts|);
      }
    }
  }

  /** A position holding the id with no earlier match is what IndexOf finds. */
  lemma IndexOfFirst(parts: seq<UploadPartition>, id: int, j: nat)
    requires j < |parts| && parts[j].id == id
    requires forall k | 0 <= k < j :: parts[k].id != id
    ensures IndexOf(parts, id) == Some(j)
  {
  }

  /** In a valid store every entry is the first (and only) one with its id. */
  lemma FirstOfUnique(file: File, parts: seq<UploadPartition>, i: nat)
    requires Valid(file, parts) && i < |parts|
    ensures IndexOf(parts, parts[i].id) == Some(i)
    ensures Partition(parts, parts[i].id) == Success(parts[i])
  {
    assert forall k | 0 <= k < i :: parts[k].id != parts[i].id;
    IndexOfFirst(parts, parts[i].id, i);
  }

  /**
   * In a valid store, setting a partition that matches entry `k` in all but
   * its ETag replaces that entry in place.
   */
  lemma SetExistingInPlace(file: File, parts: seq<UploadPartition>, u: UploadPartition, k: nat)
    requires Valid(file, parts) && k < |parts|
    requires parts[k] == u.(eTag := parts[k].eTag)
    ensures SetPartition(file, parts, u) == SetResult(parts[k := u], None)
  {
    FirstOfUnique(file, parts, k);
    var stored := SetPartition(file, parts, u);
    assert PartitionIDs(parts)[k] == u.id;
    var j :| 0 <= j < |parts| && parts[j].id == u.id
             && (forall l | 0 <= l < j :: parts[l].id != u.id) && stored.parts == parts[j := Filled(file, u)];
    assert j == k;
    assert Filled(file, u) == u;
  }

  /** SetPartition changes nothing a lookup of another id can see. */
  lemma SetKeepsOthers(file: File, parts: seq<UploadPartition>, p: UploadPartition, id: int)
    requires id != p.id
    ensures Partition(SetPartition(file, parts, p).parts, id) == Partition(parts, id)
  {
    var r := SetPartition(file, parts, p);
    if r.err.None? {
      var q := Filled(file, p);
      match IndexOf(parts, id)
      case Some(j) =>
        assert r.parts[j] == parts[j];
        assert forall k | 0 <= k < j :: r.parts[k].id != id by {
          forall k | 0 <= k < j ensures r.parts[k].id != id {
            assert r.parts[k] == parts[k] || r.parts[k] == q;
          }
        }
        IndexOfFirst(r.parts, id, j);
      case None =>
        assert forall k | 0 <= k < |r.parts| :: r.parts[k].id != id by {
          forall k | 0 <= k < |r.parts| ensures r.parts[k].id != id {
            assert (k < |parts| && r.parts[k] == parts[k]) || r.parts[k] == q;
          }
        }
        assert IndexOf(r.parts, id) == None;
    }
  }

  /** A successful SetPartition keeps the id list when the id is known and appends it otherwise. */
  lemma SetPartitionIDs(file: File, parts: seq<UploadPartition>, p: UploadPartition)
    requires SetPartition(file, parts, p).err.None?
    ensures PartitionIDs(SetPartition(file, parts, p).parts)
            == if p.id in PartitionIDs(parts) then PartitionIDs(parts) else PartitionIDs(parts) + [p.id]
  {
    var r := SetPartition(file, parts, p);
    var ids := PartitionIDs(parts);
    if p.id in ids {
      assert PartitionIDs(r.parts) == ids;
    } else {
      assert PartitionIDs(r.parts) == ids + [p.id];
    }
  }
}
