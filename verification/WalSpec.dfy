/**
 The write-ahead log as functions on its whole state: the segment files by id, how much of
 each a flush has made safe, and the counters. The outcomes of opening a new segment file and
 of writing to it are inputs.
 */
module WalSpec {
  import opened WalCodec

  const LSN_RANGE: nat := 0x1_0000_0000_0000_0000
  const INVALID_LSN: U64 := 0

  datatype Wal = Wal(
    segmentSize: nat,
    files: map<nat, seq<Octet>>,
    safe: map<nat, nat>,
    current: nat,       // current_segment_id_
    pos: nat,           // current_segment_pos_
    isOpen: bool,       // current_segment_ is open and has no error
    nextLsn: U64,
    flushedLsn: U64,
    size: int)          // current_size_

  /** How much of a write reaches the file, at once or when the stream's buffer goes out. Bytes go
      out in order, so a write that is cut leaves a stream that takes nothing until it is opened
      again; nobody looks at its error bits. */
  datatype LogWrite = Whole | Cut(n: nat)

  /** The outcome of a rotation, if an append needs one, and of its write. */
  datatype AppendIo = AppendIo(rotated: bool, write: LogWrite)

  const CLEAN := AppendIo(true, Whole)

  /** The bytes of `b` that reach the file. */
  function Landed(b: seq<Octet>, write: LogWrite): seq<Octet> {
    if write.Cut? && write.n < |b| then b[..write.n] else b
  }

  /** A log in an empty directory. */
  function Fresh(segmentSize: nat): Wal {
    Wal(segmentSize, map[0 := []], map[0 := 0], 0, 0, true, 1, 0, 0)
  }

  function FileOf(w: Wal, i: nat): seq<Octet> {
    if i in w.files then w.files[i] else []
  }

  /** current_segment_.flush() */
  function Flush(w: Wal): Wal {
    if w.isOpen then w.(safe := w.safe[w.current := |FileOf(w, w.current)|]) else w
  }

  /** WriteAheadLog::rotate_segment; the new file is created empty. */
  function Rotate(w: Wal, rotated: bool): Wal {
    var f := Flush(w);
    var id := w.current + 1;
    if rotated then
      f.(current := id, pos := 0, isOpen := true, files := w.files[id := []], safe := f.safe[id := 0])
    else
      f.(current := id, pos := 0, isOpen := false)
  }

  /** Writing to a stream that takes nothing has no effect on any file; the counters move. */
  function Write(w: Wal, b: seq<Octet>, write: LogWrite): Wal {
    w.(files := if w.isOpen then w.files[w.current := FileOf(w, w.current) + Landed(b, write)] else w.files,
       isOpen := w.isOpen && write.Whole?, pos := w.pos + |b|, size := w.size + |b|)
  }

  function Stamp(w: Wal, r: Record): Record {
    r.(lsn := w.nextLsn)
  }

  predicate NeedsRotation(w: Wal, r: Record) {
    w.pos + SizeOf(r) > w.segmentSize
  }

  /** WriteAheadLog::append */
  function Append(w: Wal, r: Record, io: AppendIo): (Wal, U64) {
    var stamped := Stamp(w, r);
    var w1 := w.(nextLsn := (w.nextLsn + 1) % LSN_RANGE);
    if !NeedsRotation(w, stamped) then
      (Write(w1, Encode(stamped), io.write), w.nextLsn)
    else if !io.rotated then
      (Rotate(w1, false), INVALID_LSN)
    else
      (Write(Rotate(w1, true), Encode(stamped), io.write), w.nextLsn)
  }

  lemma LandedIs(b: seq<Octet>, write: LogWrite)
    ensures Landed(b, write) == if write.Cut? && write.n < |b| then b[..write.n] else b
  {
  }

  /** What an append does, outright. Without a rotation, what its write lets through is added to the
      current file, if the stream takes anything. A rotation that fails leaves the next segment without
      a file and returns zero; one that succeeds makes the bytes of the old file safe and the record the
      first of the new one. The counters move by the whole record in either case. */
  lemma AppendExact(w: Wal, r: Record, io: AppendIo)
    ensures var (u, lsn) := Append(w, r, io);
            var b, file, next := Encode(r.(lsn := w.nextLsn)), FileOf(w, w.current), w.current + 1;
            var landed := if io.write.Cut? && io.write.n < |b| then b[..io.write.n] else b;
            var safe := if w.isOpen then w.safe[w.current := |file|] else w.safe;
            && u.segmentSize == w.segmentSize && u.flushedLsn == w.flushedLsn && |b| == 37 + |r.data|
            && u.nextLsn == (if w.nextLsn == 0xFFFF_FFFF_FFFF_FFFF then 0 else w.nextLsn + 1)
            && if w.pos + 37 + |r.data| <= w.segmentSize then
                 && lsn == w.nextLsn && u.current == w.current && u.safe == w.safe
                 && u.files == (if w.isOpen then w.files[w.current := file + landed] else w.files)
                 && u.isOpen == (w.isOpen && io.write.Whole?) && u.pos == w.pos + |b| && u.size == w.size + |b|
               else if io.rotated then
                 && lsn == w.nextLsn && u.current == next && u.safe == safe[next := 0]
                 && u.files == w.files[next := landed] && u.isOpen == io.write.Whole?
                 && u.pos == |b| && u.size == w.size + |b|
               else
                 && lsn == 0 && u.current == next && u.safe == safe
                 && u.files == w.files && !u.isOpen && u.pos == 0 && u.size == w.size
  {
    hide Encode, EncodeOnto, Landed;
    EncodeOntoIsConcat(Stamp(w, r), []);
    LandedIs(Encode(Stamp(w, r)), io.write);
    var landed := Landed(Encode(Stamp(w, r)), io.write);
    assert [] + landed == landed;
    assert w.files[w.current + 1 := []][w.current + 1 := landed] == w.files[w.current + 1 := landed];
  }

  /** WriteAheadLog::force */
  function Force(w: Wal, lsn: U64): Wal {
    Flush(w).(flushedLsn := lsn)
  }

  const CHECKPOINT_BEGIN: U8 := 7
  const CHECKPOINT_END: U8 := 8
  const INVALID_PAGE: U32 := 0xFFFF_FFFF

  function BeginRecord(): Record {
    Record(CHECKPOINT_BEGIN, 0, 0, INVALID_PAGE, 0, 0, 0, [])
  }

  function EndRecord(begin: U64): Record {
    Record(CHECKPOINT_END, 0, 0, INVALID_PAGE, 0, 0, begin, [])
  }

  /** The bytes of all files with an id below `n`. */
  function BytesBelow(files: map<nat, seq<Octet>>, n: nat): nat {
    if n == 0 then 0
    else BytesBelow(files, n - 1) + if n - 1 in files then |files[n - 1]| else 0
  }

  /** The oldest segment that truncation keeps. */
  function Bound(w: Wal): nat {
    if w.current == 0 then 0 else w.current - 1
  }

  /** WriteAheadLog::truncate_before, which ignores its LSN: every segment older than the
      previous one goes, if it can be removed. `removed` says which can; the bytes of the others
      are subtracted all the same. */
  function Truncate(w: Wal, removed: nat -> bool): Wal {
    var bound := Bound(w);
    w.(files := map i | i in w.files && (i >= bound || !removed(i)) :: w.files[i],
       safe := map i | i in w.safe && (i >= bound || !removed(i)) :: w.safe[i],
       size := w.size - BytesBelow(w.files, bound))
  }

  function AllRemoved(): nat -> bool {
    i => true
  }
}
