/**
 The write-ahead log object over its directory of segment files. Each method is proved to do
 exactly what its function in WalSpec says.
 */
module WriteAheadLogs {
  import opened WalCodec
  import opened WalSpec
  import WalRuns

  class WriteAheadLog {
    const segmentSize: nat
    var files: map<nat, seq<Octet>>
    var safe: map<nat, nat>
    var currentSegmentId: nat
    var currentSegmentPos: nat
    var isOpen: bool
    var nextLsn: U64
    var flushedLsn: U64
    var currentSize: int

    ghost function State(): Wal
      reads this
    {
      Wal(segmentSize, files, safe, currentSegmentId, currentSegmentPos, isOpen, nextLsn, flushedLsn, currentSize)
    }

    /** Initialization in an empty directory. */
    constructor (segmentSize: nat)
      ensures State() == Fresh(segmentSize)
    {
      this.segmentSize := segmentSize;
      files, safe := map[0 := []], map[0 := 0];
      currentSegmentId, currentSegmentPos, isOpen := 0, 0, true;
      nextLsn, flushedLsn, currentSize := 1, 0, 0;
    }

    method FlushStream()
      modifies this`safe
      ensures State() == Flush(old(State()))
    {
      if isOpen {
        safe := safe[currentSegmentId := |if currentSegmentId in files then files[currentSegmentId] else []|];
      }
    }

    method RotateSegment(rotated: bool)
      modifies this
      ensures State() == Rotate(old(State()), rotated)
    {
      FlushStream();
      isOpen := false;
      currentSegmentId := currentSegmentId + 1;
      currentSegmentPos := 0;
      if rotated {
        files := files[currentSegmentId := []];
        safe := safe[currentSegmentId := 0];
        isOpen := true;
      }
    }

    method Append(record: Record, io: AppendIo) returns (lsn: U64)
      modifies this
      ensures (State(), lsn) == WalSpec.Append(old(State()), record, io)
    {
      var rec := record.(lsn := nextLsn);
      nextLsn := (nextLsn + 1) % LSN_RANGE;
      var buffer := Serialize(rec);
      EncodeOntoIsConcat(rec, []);
      if currentSegmentPos + buffer.Length > segmentSize {
        RotateSegment(io.rotated);
        if !io.rotated {
          return INVALID_LSN;
        }
      }
      WriteBytes(buffer[..], io.write);
      lsn := rec.lsn;
    }

    method WriteBytes(b: seq<Octet>, write: LogWrite)
      modifies this
      ensures State() == Write(old(State()), b, write)
    {
      if isOpen {
        var file := if currentSegmentId in files then files[currentSegmentId] else [];
        files := files[currentSegmentId := file + Landed(b, write)];
        isOpen := write.Whole?;
      }
      currentSegmentPos := currentSegmentPos + |b|;
      currentSize := currentSize + |b|;
    }

    method Force(lsn: U64)
      modifies this
      ensures State() == WalSpec.Force(old(State()), lsn)
    {
      FlushStream();
      flushedLsn := lsn;
    }

    method WriteCheckpointBegin(io: AppendIo) returns (lsn: U64)
      modifies this
      ensures (State(), lsn) == WalSpec.Append(old(State()), Record(7, 0, 0, 0xFFFF_FFFF, 0, 0, 0, []), io)
    {
      lsn := Append(BeginRecord(), io);
    }

    method WriteCheckpointEnd(begin: U64, io: AppendIo) returns (lsn: U64)
      modifies this
      ensures var (w, end) := WalSpec.Append(old(State()), Record(8, 0, 0, 0xFFFF_FFFF, 0, 0, begin, []), io);
              lsn == end && State() == WalSpec.Force(w, end)
    {
      lsn := Append(EndRecord(begin), io);
      Force(lsn);
    }

    method TruncateBefore(lsn: U64, removed: nat -> bool)
      modifies this
      ensures State() == Truncate(old(State()), removed)
    {
      var freed := RemoveOldSegments(removed);
      var keep := currentSegmentId;
      safe := map i | i in safe && (i + 2 > keep || !removed(i)) :: safe[i];
      if freed > 0 {
        currentSize := currentSize - freed;
      }
    }

    /** The directory is visited in no particular order. The size of a file is counted before
        its removal, which may throw. */
    method RemoveOldSegments(removed: nat -> bool) returns (freed: nat)
      modifies this`files
      ensures var bound := Bound(old(State()));
              && files == (map i | i in old(files) && (i >= bound || !removed(i)) :: old(files)[i])
              && freed == BytesBelow(old(files), bound)
    {
      freed := 0;
      var entries := files.Keys;
      ghost var bound, left := Bound(State()), files;
      while entries != {}
        invariant entries <= files.Keys && left.Keys == entries
        invariant forall i :: i in files <==> i in old(files) && (i in entries || i >= bound || !removed(i))
        invariant forall i | i in files :: files[i] == old(files)[i]
        invariant forall i | i in left :: left[i] == old(files)[i]
        invariant freed + BytesBelow(left, bound) == BytesBelow(old(files), bound)
        decreases entries
      {
        var segId :| segId in entries;
        entries := entries - {segId};
        if segId + 2 <= currentSegmentId {
          freed := freed + |files[segId]|;
          BytesWithout(left, segId, bound);
          if removed(segId) {
            files := files - {segId};
          }
        } else {
          WalRuns.BytesBelowSame(left, left - {segId}, bound);
        }
        left := left - {segId};
      }
      WalRuns.NoBytes(left, bound);
    }
  }

  lemma {:induction false} BytesWithout(f: map<nat, seq<Octet>>, k: nat, n: nat)
    requires k in f && k < n
    ensures BytesBelow(f, n) == BytesBelow(f - {k}, n) + |f[k]|
  {
    if n == k + 1 {
      WalRuns.BytesBelowSame(f, f - {k}, k);
    } else {
      BytesWithout(f, k, n - 1);
    }
  }
}
