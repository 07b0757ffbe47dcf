/**
 The write-ahead log of src/storage/wal_impl.cpp: record framing, the reader that
 stops at a torn tail, and the group-commit queue.
 */
module Wal {
  import opened Wrappers
  import opened Bytes
  import opened RowCodec

  const CREATE_TABLE: byte := 0
  const DROP_TABLE: byte := 1
  const INSERT: byte := 2
  const UPDATE: byte := 3
  const DELETE: byte := 4

  const MAGIC: Blob := [0x4F, 0x52, 0x57, 0x41, 0x4C, 0x01, 0, 0]

  datatype Entry = Entry(
    kind: byte, sequence: nat, transaction: uint64, timestamp: uint64, table: Blob, key: Blob, data: Blob)

  // ---- Framing ----

  function RecordBytes(e: Entry): Blob {
    [e.kind] + (PutU64(e.sequence) + (PutU64(e.transaction) + (PutU64(e.timestamp)
    + (PutBlob(e.table) + (PutBlob(e.key) + PutBlob(e.data))))))
  }

  function Frame(e: Entry): (s: Blob)
    ensures |s| >= 4
  {
    PutBlob(RecordBytes(e))
  }

  function LogBytes(es: seq<Entry>): Blob {
    if es == [] then [] else Frame(es[0]) + LogBytes(es[1..])
  }

  /** The record's payload, or None where the source throws. Bytes after the data field are ignored. */
  function RecordOf(rec: Blob): Option<Entry> {
    var (kind, r0) :- GetU8(rec);
    var (sequence, r1) :- GetU64(r0);
    var (transaction, r2) :- GetU64(r1);
    var (timestamp, r3) :- GetU64(r2);
    var (table, r4) :- GetBlob(r3);
    var (key, r5) :- GetBlob(r4);
    var (data, r6) :- GetBlob(r5);
    Some(Entry(kind, sequence, transaction, timestamp, table, key, data))
  }

  /** The entry a record contributes: none if it is malformed or has sequence 0. */
  function Kept(rec: Blob): seq<Entry> {
    match RecordOf(rec)
    case Some(e) => if e.sequence > 0 then [e] else []
    case None => []
  }

  function ReadFrames(s: Blob): seq<Entry>
    decreases |s|
  {
    match GetBlob(s)
    case None => []
    case Some((rec, rest)) => Kept(rec) + ReadFrames(rest)
  }

  function ReadLog(file: Blob): seq<Entry> {
    if |file| < |MAGIC| || file[..|MAGIC|] != MAGIC then [] else ReadFrames(file[|MAGIC|..])
  }

  /** The lengths and the sequence number fit their fields, and readers keep the entry. */
  predicate Loggable(e: Entry) {
    && |RecordBytes(e)| < U32_SIZE
    && 0 < e.sequence < U64_SIZE
  }

  predicate AllLoggable(es: seq<Entry>) {
    forall i :: 0 <= i < |es| ==> Loggable(es[i])
  }

  // ---- Round trip ----

  lemma RecordSize(e: Entry)
    ensures |RecordBytes(e)| == 37 + |e.table| + |e.key| + |e.data|
  {
  }

  lemma RecordRoundTrip(e: Entry)
    requires |RecordBytes(e)| < U32_SIZE && e.sequence < U64_SIZE
    ensures RecordOf(RecordBytes(e)) == Some(e)
  {
    hide PutU64, GetU64, PutBlob, GetBlob;
    RecordSize(e);
    var b5 := PutBlob(e.key) + PutBlob(e.data);
    var b4 := PutBlob(e.table) + b5;
    var b3 := PutU64(e.timestamp) + b4;
    var b2 := PutU64(e.transaction) + b3;
    var b1 := PutU64(e.sequence) + b2;
    assert RecordBytes(e) == [e.kind] + b1;
    assert RecordBytes(e)[1..] == b1;
    GetU64Put(e.sequence, b2);
    GetU64Put(e.transaction, b3);
    GetU64Put(e.timestamp, b4);
    GetBlobPut(e.table, b5);
    GetBlobPut(e.key, PutBlob(e.data));
    GetBlobPut(e.data, []);
    assert PutBlob(e.data) + [] == PutBlob(e.data);
  }

  lemma FrameRoundTrip(e: Entry, rest: Blob)
    requires Loggable(e)
    ensures ReadFrames(Frame(e) + rest) == [e] + ReadFrames(rest)
  {
    hide PutBlob, GetBlob, RecordBytes, RecordOf;
    GetBlobPut(RecordBytes(e), rest);
    RecordRoundTrip(e);
  }

  lemma GetU64Left(s: Blob)
    requires GetU64(s).Some?
    ensures |GetU64(s).value.1| == |s| - 8
  {
  }

  lemma GetBlobLeft(s: Blob)
    requires GetBlob(s).Some?
    ensures |GetBlob(s).value.1| == |s| - 4 - |GetBlob(s).value.0|
  {
  }

  lemma DecodedRecordSize(rec: Blob)
    requires RecordOf(rec).Some?
    ensures |RecordBytes(RecordOf(rec).value)| <= |rec|
    ensures RecordOf(rec).value.sequence < U64_SIZE
  {
    hide PutU64, GetU64, PutBlob, GetBlob, RecordBytes;
    var (kind, r0) := GetU8(rec).value;
    GetU64Left(r0);
    var r1 := GetU64(r0).value.1;
    GetU64Left(r1);
    var r2 := GetU64(r1).value.1;
    GetU64Left(r2);
    var r3 := GetU64(r2).value.1;
    GetBlobLeft(r3);
    var r4 := GetBlob(r3).value.1;
    GetBlobLeft(r4);
    var r5 := GetBlob(r4).value.1;
    GetBlobLeft(r5);
    RecordSize(RecordOf(rec).value);
  }

  /** Whatever bytes are read, only loggable entries come out. */
  lemma {:induction false} ReadFramesLoggable(s: Blob)
    ensures AllLoggable(ReadFrames(s))
    decreases |s|
  {
    hide GetBlob, RecordOf, RecordBytes;
    if GetBlob(s).Some? {
      var (rec, rest) := GetBlob(s).value;
      GetBlobLeft(s);
      ReadFramesLoggable(rest);
      GetBlobBound(s);
      if RecordOf(rec).Some? {
        DecodedRecordSize(rec);
      }
    }
  }

  /** One entry is written and read back unchanged exactly when it is loggable. */
  lemma LoggedEntryReadBack(e: Entry)
    ensures ReadLog(MAGIC + Frame(e)) == [e] <==> Loggable(e)
  {
    hide Frame, ReadFrames, RecordBytes;
    assert (MAGIC + Frame(e))[|MAGIC|..] == Frame(e);
    if Loggable(e) {
      FrameRoundTrip(e, []);
      assert Frame(e) + [] == Frame(e);
      assert ReadFrames([]) == [] by {
        ReadFramesEmpty();
      }
    } else {
      ReadFramesLoggable(Frame(e));
      var es := ReadLog(MAGIC + Frame(e));
      assert es == ReadFrames(Frame(e));
      assert AllLoggable(es);
      if |es| == 1 {
        assert Loggable(es[0]);
      }
    }
  }

  lemma ReadFramesEmpty()
    ensures ReadFrames([]) == []
  {
  }

  lemma {:induction false} LogBytesConcat(a: seq<Entry>, b: seq<Entry>)
    ensures LogBytes(a + b) == LogBytes(a) + LogBytes(b)
    decreases |a|
  {
    if a == [] {
      assert a + b == b;
    } else {
      hide Frame;
      assert (a + b)[1..] == a[1..] + b;
      LogBytesConcat(a[1..], b);
    }
  }

  lemma LogBytesAppend(es: seq<Entry>, e: Entry)
    ensures LogBytes(es + [e]) == LogBytes(es) + Frame(e)
  {
    hide Frame;
    LogBytesConcat(es, [e]);
    assert LogBytes([e]) == Frame(e) + LogBytes([]);
  }

  lemma NoLogBytes()
    ensures LogBytes([]) == []
  {
  }

  /** The magic "ORWAL" with version 1, and the record types. */
  lemma KnownCodes()
    ensures MAGIC == [0x4F, 0x52, 0x57, 0x41, 0x4C, 1, 0, 0]
    ensures CREATE_TABLE == 0 && DROP_TABLE == 1 && INSERT == 2 && UPDATE == 3 && DELETE == 4
  {
  }

  /** Where each field stands: type, sequence, transaction and timestamp at fixed places, then table, key and data. */
  lemma RecordLayout(e: Entry)
    ensures Frame(e)[..4] == PutU32(|RecordBytes(e)|) && Frame(e)[4..] == RecordBytes(e)
    ensures |RecordBytes(e)| >= 37
    ensures var r := RecordBytes(e);
            && r[0] == e.kind && r[1..9] == PutU64(e.sequence)
            && r[9..17] == PutU64(e.transaction) && r[17..25] == PutU64(e.timestamp)
            && r[25..] == PutBlob(e.table) + (PutBlob(e.key) + PutBlob(e.data))
  {
    hide PutU64, PutBlob, PutU32;
    RecordSize(e);
    FrameIs(e);
    var blobs := PutBlob(e.table) + (PutBlob(e.key) + PutBlob(e.data));
    var b3 := PutU64(e.timestamp) + blobs;
    var b2 := PutU64(e.transaction) + b3;
    var b1 := PutU64(e.sequence) + b2;
    assert RecordBytes(e) == [e.kind] + b1;
  }

  lemma FrameIs(e: Entry)
    ensures Frame(e) == PutU32(|RecordBytes(e)|) + RecordBytes(e)
  {
  }

  // ---- Torn tail ----

  /** How many leading frames lie wholly within the first cut bytes. */
  function CompleteFrames(es: seq<Entry>, cut: nat): (k: nat)
    ensures k <= |es|
    decreases |es|
  {
    if es == [] || cut < |Frame(es[0])| then 0
    else 1 + CompleteFrames(es[1..], cut - |Frame(es[0])|)
  }

  /** CompleteFrames is the largest number of frames that fit before the cut. */
  lemma {:induction false} CompleteFramesIsLargest(es: seq<Entry>, cut: nat, k: nat)
    requires k <= |es|
    ensures k <= CompleteFrames(es, cut) <==> |LogBytes(es[..k])| <= cut
    decreases |es|
  {
    hide Frame;
    if k > 0 {
      assert es[..k][1..] == es[1..][..k - 1];
      if cut >= |Frame(es[0])| {
        CompleteFramesIsLargest(es[1..], cut - |Frame(es[0])|, k - 1);
      }
    }
  }

  lemma TornFrameUnread(e: Entry, cut: nat)
    requires |RecordBytes(e)| < U32_SIZE
    requires cut < |Frame(e)|
    ensures ReadFrames(Frame(e)[..cut]) == []
  {
    hide PutU32, GetU32, RecordBytes;
    var s := Frame(e)[..cut];
    if cut >= 4 {
      GetU32Put(|RecordBytes(e)|, RecordBytes(e)[..cut - 4]);
      assert s == PutU32(|RecordBytes(e)|) + RecordBytes(e)[..cut - 4];
    } else {
      assert GetU32(s).None? by { GetU32Short(s); }
    }
  }

  lemma GetU32Short(s: Blob)
    requires |s| < 4
    ensures GetU32(s).None?
  {
  }

  /** A log cut anywhere gives back exactly the entries whose frames lie wholly before the cut, in order. */
  lemma {:induction false} TornTail(es: seq<Entry>, cut: nat)
    requires AllLoggable(es)
    requires cut <= |LogBytes(es)|
    ensures ReadFrames(LogBytes(es)[..cut]) == es[..CompleteFrames(es, cut)]
    decreases |es|
  {
    hide Frame, ReadFrames, Loggable;
    if es == [] {
      ReadFramesEmpty();
    } else if cut < |Frame(es[0])| {
      assert LogBytes(es)[..cut] == Frame(es[0])[..cut];
      assert Loggable(es[0]);
      LoggableSize(es[0]);
      TornFrameUnread(es[0], cut);
    } else {
      var cut' := cut - |Frame(es[0])|;
      assert LogBytes(es)[..cut] == Frame(es[0]) + LogBytes(es[1..])[..cut'];
      assert Loggable(es[0]);
      FrameRoundTrip(es[0], LogBytes(es[1..])[..cut']);
      TornTail(es[1..], cut');
      var k := CompleteFrames(es[1..], cut');
      assert es[..1 + k] == [es[0]] + es[1..][..k];
    }
  }

  lemma LoggableSize(e: Entry)
    requires Loggable(e)
    ensures |RecordBytes(e)| < U32_SIZE
  {
  }

  /** The same for a whole log file: any cut at or after the magic. */
  lemma TornFile(es: seq<Entry>, cut: nat)
    requires AllLoggable(es)
    requires |MAGIC| <= cut <= |MAGIC + LogBytes(es)|
    ensures ReadLog((MAGIC + LogBytes(es))[..cut]) == es[..CompleteFrames(es, cut - |MAGIC|)]
  {
    hide ReadFrames, LogBytes, CompleteFrames, AllLoggable;
    var file := (MAGIC + LogBytes(es))[..cut];
    assert file[..|MAGIC|] == MAGIC;
    assert file[|MAGIC|..] == LogBytes(es)[..cut - |MAGIC|];
    TornTail(es, cut - |MAGIC|);
  }

  /**
   A torn tail is not cut before new appends. If a crash leaves three bytes of a frame,
   then everything appended afterwards (while it totals under 16 MiB) is unreadable.
   */
  lemma TornTailHidesLaterEntries(e: Entry, later: seq<Entry>)
    requires |RecordBytes(e)| < U32_SIZE
    requires later != [] && |RecordBytes(later[0])| < U32_SIZE && |RecordBytes(later[0])| % 256 > 0
    requires |LogBytes(later)| < 0x100_0000
    ensures ReadLog(MAGIC + Frame(e)[..3] + LogBytes(later)) == []
  {
    hide RecordBytes;
    var tail := Frame(e)[..3] + LogBytes(later);
    assert (MAGIC + Frame(e)[..3] + LogBytes(later))[|MAGIC|..] == tail;
    assert tail[3] == PutU32(|RecordBytes(later[0])|)[0];
    assert Word(tail[0], tail[1], tail[2], tail[3]) >= 0x100_0000;
    assert GetBlob(tail).None?;
  }

  lemma {:induction false} ReadBackAll(es: seq<Entry>)
    requires AllLoggable(es)
    ensures ReadFrames(LogBytes(es)) == es
  {
    hide ReadFrames, LogBytes, CompleteFrames, Loggable;
    assert es[..|es|] == es && LogBytes(es)[..|LogBytes(es)|] == LogBytes(es);
    TornTail(es, |LogBytes(es)|);
    CompleteFramesIsLargest(es, |LogBytes(es)|, |es|);
  }

  /** What is read never takes more bytes than there were. */
  lemma {:induction false} ReadFramesSize(s: Blob)
    ensures |LogBytes(ReadFrames(s))| <= |s|
    decreases |s|
  {
    hide GetBlob, RecordOf, RecordBytes, Frame;
    NoLogBytes();
    if GetBlob(s).Some? {
      var (rec, rest) := GetBlob(s).value;
      GetBlobLeft(s);
      ReadFramesSize(rest);
      LogBytesConcat(Kept(rec), ReadFrames(rest));
      KeptSize(rec);
    }
  }

  lemma KeptSize(rec: Blob)
    ensures |LogBytes(Kept(rec))| <= 4 + |rec|
  {
    hide RecordOf, RecordBytes, PutU32;
    NoLogBytes();
    if RecordOf(rec).Some? {
      var e := RecordOf(rec).value;
      DecodedRecordSize(rec);
      LogBytesAppend([], e);
      assert [] + [e] == [e];
    }
  }

  /** An entry that a misaligned reader cannot produce: its kind is not the torn one's nor any byte of its length. */
  function Probe(torn: Entry): Entry {
    Entry(if torn.kind == INSERT then UPDATE else INSERT, 1, 0, 0, [], [], [])
  }

  lemma ProbeFrame(torn: Entry)
    ensures Loggable(Probe(torn)) && |Frame(Probe(torn))| == 41
    ensures Frame(Probe(torn))[0] == 37
    ensures Frame(Probe(torn))[1] == Frame(Probe(torn))[2] == Frame(Probe(torn))[3] == 0
  {
    RecordSize(Probe(torn));
  }

  lemma FrameKind(e: Entry)
    ensures |Frame(e)| > 4 && Frame(e)[4] == e.kind
  {
    hide PutU64, PutBlob;
    RecordSize(e);
    assert Frame(e) == PutU32(|RecordBytes(e)|) + RecordBytes(e) by { FrameIs(e); }
  }

  lemma KeptKind(rec: Blob)
    ensures Kept(rec) != [] ==> rec != [] && |Kept(rec)| == 1 && Kept(rec)[0].kind == rec[0]
  {
    hide GetU64, GetBlob;
  }

  lemma LengthRead(torn: Entry, r: nat, more: Blob)
    requires |RecordBytes(torn)| < U32_SIZE && 4 <= r < |Frame(torn)|
    ensures GetBlob(Frame(torn)[..r] + more).Some? ==>
              |GetBlob(Frame(torn)[..r] + more).value.0| == |RecordBytes(torn)| >= r - 3
  {
    hide PutU32, GetU32, RecordBytes;
    FrameIs(torn);
    var s := Frame(torn)[..r] + more;
    assert s == PutU32(|RecordBytes(torn)|) + (RecordBytes(torn)[..r - 4] + more);
    GetU32Put(|RecordBytes(torn)|, RecordBytes(torn)[..r - 4] + more);
  }

  /** The first record read across a tear ends past it and does not begin like the probe. */
  lemma FirstAcrossTear(torn: Entry, r: nat)
    requires |RecordBytes(torn)| < U32_SIZE && 0 < r < |Frame(torn)|
    ensures var s := Frame(torn)[..r] + Frame(Probe(torn));
            GetBlob(s).Some? ==>
              && |GetBlob(s).value.1| < 41
              && (GetBlob(s).value.0 != [] ==> GetBlob(s).value.0[0] != Probe(torn).kind)
  {
    hide Frame, GetU32, RecordBytes;
    var s := Frame(torn)[..r] + Frame(Probe(torn));
    ProbeFrame(torn);
    FrameKind(torn);
    if GetBlob(s).Some? {
      var (rec, rest) := GetBlob(s).value;
      GetBlobLeft(s);
      if r >= 4 {
        LengthRead(torn, r, Frame(Probe(torn)));
      }
      if rec != [] {
        BlobBegins(s);
        assert s[4] == if r > 4 then Frame(torn)[4] else Frame(Probe(torn))[4 - r];
      }
    }
  }

  lemma BlobBegins(s: Blob)
    requires GetBlob(s).Some? && GetBlob(s).value.0 != []
    ensures |s| > 4 && GetBlob(s).value.0[0] == s[4]
  {
    hide GetU32;
    TakenFrom(s);
  }

  lemma TakenFrom(s: Blob)
    requires GetBlob(s).Some?
    ensures |s| >= 4 + |GetBlob(s).value.0| && GetBlob(s).value.0 == s[4..][..|GetBlob(s).value.0|]
  {
  }

  /** An entry appended right behind part of a frame is not read back. */
  lemma ProbeUnread(torn: Entry, r: nat)
    requires |RecordBytes(torn)| < U32_SIZE && 0 < r < |Frame(torn)|
    ensures ReadFrames(Frame(torn)[..r] + Frame(Probe(torn))) != [Probe(torn)]
  {
    hide GetBlob, Frame, RecordBytes, Kept, LogBytes;
    var p := Probe(torn);
    var s := Frame(torn)[..r] + Frame(p);
    FirstAcrossTear(torn, r);
    if GetBlob(s).Some? {
      var (rec, rest) := GetBlob(s).value;
      KeptKind(rec);
      ReadFramesSize(rest);
      ProbeFrame(torn);
      LogBytesAppend([], p);
      NoLogBytes();
      assert [] + [p] == [p] && |LogBytes([p])| == 41;
      assert ReadFrames(s) == Kept(rec) + ReadFrames(rest);
      if Kept(rec) == [] {
        assert ReadFrames(s) == ReadFrames(rest);
      } else {
        assert ReadFrames(s)[0] == Kept(rec)[0];
      }
    }
  }

  /** The log cut within a frame is its whole frames and the part of the next one. */
  lemma {:induction false} CutLog(es: seq<Entry>, cut: nat)
    requires cut <= |LogBytes(es)|
    ensures var k := CompleteFrames(es, cut);
            && |LogBytes(es[..k])| <= cut
            && (cut == |LogBytes(es[..k])| ==> LogBytes(es)[..cut] == LogBytes(es[..k]))
            && (cut > |LogBytes(es[..k])| ==>
                  && k < |es| && cut - |LogBytes(es[..k])| < |Frame(es[k])|
                  && LogBytes(es)[..cut] == LogBytes(es[..k]) + Frame(es[k])[..cut - |LogBytes(es[..k])|])
    decreases |es|
  {
    hide Frame;
    NoLogBytes();
    var k := CompleteFrames(es, cut);
    if es != [] {
      var n := |Frame(es[0])|;
      if cut < n {
        assert es[..k] == [];
        assert LogBytes(es)[..cut] == Frame(es[0])[..cut];
      } else {
        CutLog(es[1..], cut - n);
        assert es[..k][1..] == es[1..][..k - 1];
        assert LogBytes(es)[..cut] == Frame(es[0]) + LogBytes(es[1..])[..cut - n];
      }
    }
  }

  lemma {:induction false} ReadAfter(es: seq<Entry>, rest: Blob)
    requires AllLoggable(es)
    ensures ReadFrames(LogBytes(es) + rest) == es + ReadFrames(rest)
    decreases |es|
  {
    hide Frame, ReadFrames, Loggable;
    if es == [] {
      assert [] + rest == rest;
    } else {
      assert LogBytes(es) + rest == Frame(es[0]) + (LogBytes(es[1..]) + rest);
      assert Loggable(es[0]);
      FrameRoundTrip(es[0], LogBytes(es[1..]) + rest);
      ReadAfter(es[1..], rest);
    }
  }

  /** Whatever is appended to the log cut at `cut` is read back behind the entries that survived. */
  ghost predicate AppendsReadable(es: seq<Entry>, cut: nat)
    requires cut <= |LogBytes(es)|
  {
    forall later :: AllLoggable(later) ==>
      ReadFrames(LogBytes(es)[..cut] + LogBytes(later)) == es[..CompleteFrames(es, cut)] + later
  }

  /** A torn tail is not cut before new appends, so they are all read back exactly when the cut is a frame boundary. */
  lemma AppendsReadableIff(es: seq<Entry>, cut: nat)
    requires AllLoggable(es) && cut <= |LogBytes(es)|
    ensures AppendsReadable(es, cut) <==> cut == |LogBytes(es[..CompleteFrames(es, cut)])|
  {
    hide ReadFrames, LogBytes, CompleteFrames, Loggable, Frame;
    var k := CompleteFrames(es, cut);
    CutLog(es, cut);
    if cut == |LogBytes(es[..k])| {
      forall later | AllLoggable(later)
        ensures ReadFrames(LogBytes(es)[..cut] + LogBytes(later)) == es[..k] + later
      {
        ReadAfter(es[..k], LogBytes(later));
        ReadBackAll(later);
      }
    } else {
      var r := cut - |LogBytes(es[..k])|;
      var p := Probe(es[k]);
      LoggableSize(es[k]);
      ProbeUnread(es[k], r);
      ProbeFrame(es[k]);
      LogBytesAppend([], p);
      NoLogBytes();
      assert [] + [p] == [p] && [] + Frame(p) == Frame(p);
      assert LogBytes(es)[..cut] + LogBytes([p]) == LogBytes(es[..k]) + (Frame(es[k])[..r] + Frame(p));
      ReadAfter(es[..k], Frame(es[k])[..r] + Frame(p));
      var read := ReadFrames(Frame(es[k])[..r] + Frame(p));
      assert (es[..k] + read)[k..] == read && (es[..k] + [p])[k..] == [p];
      assert ReadFrames(LogBytes(es)[..cut] + LogBytes([p])) != es[..k] + [p];
    }
  }

  /** The file a restart opens: an empty one gets the magic, any other is left as it is. */
  function Opened(file: Blob): Blob {
    if file == [] then MAGIC else file
  }

  /** Only an empty file or one cut at a frame boundary behind the whole magic. */
  predicate CleanCut(es: seq<Entry>, cut: nat) {
    cut == 0 || (cut >= |MAGIC| && cut == |MAGIC| + |LogBytes(es[..CompleteFrames(es, cut - |MAGIC|)])|)
  }

  /**
   For a log file cut anywhere, the magic included: everything appended after the restart is read back
   exactly when the cut left nothing, or ended at a frame boundary.
   */
  lemma RestartReadableIff(es: seq<Entry>, cut: nat)
    requires AllLoggable(es) && cut <= |MAGIC + LogBytes(es)|
    ensures var file := Opened((MAGIC + LogBytes(es))[..cut]);
            (forall later :: AllLoggable(later) ==> ReadLog(file + LogBytes(later)) == ReadLog(file) + later)
            <==> CleanCut(es, cut)
  {
    hide ReadFrames, LogBytes, CompleteFrames, Loggable, AllLoggable;
    var file := (MAGIC + LogBytes(es))[..cut];
    if cut == 0 {
      forall later | AllLoggable(later) ensures ReadLog(MAGIC + LogBytes(later)) == ReadLog(MAGIC) + later {
        assert (MAGIC + LogBytes(later))[|MAGIC|..] == LogBytes(later) && MAGIC[|MAGIC|..] == [];
        ReadBackAll(later);
        ReadFramesEmpty();
      }
    } else if cut < |MAGIC| {
      assert file == MAGIC[..cut];
      ShortMagic(cut);
    } else {
      var c := cut - |MAGIC|;
      TornFile(es, cut);
      assert file == MAGIC + LogBytes(es)[..c];
      forall later {:trigger LogBytes(later)}
        ensures ReadLog(file + LogBytes(later)) == ReadFrames(LogBytes(es)[..c] + LogBytes(later))
      {
        assert (file + LogBytes(later))[|MAGIC|..] == LogBytes(es)[..c] + LogBytes(later);
      }
      AppendsReadableIff(es, c);
    }
  }

  lemma ShortMagic(n: nat)
    requires 0 < n < |MAGIC|
    ensures exists later :: AllLoggable(later) && ReadLog(MAGIC[..n] + LogBytes(later)) != ReadLog(MAGIC[..n]) + later
  {
    hide Frame, LogBytes, RecordBytes;
    var p := Probe(Entry(0, 0, 0, 0, [], [], []));
    ProbeFrame(Entry(0, 0, 0, 0, [], [], []));
    LogBytesAppend([], p);
    NoLogBytes();
    assert [] + [p] == [p] && [] + Frame(p) == Frame(p);
    assert (MAGIC[..n] + Frame(p))[n] == 37 != MAGIC[n];
    assert (MAGIC[..n] + Frame(p))[..|MAGIC|][n] == 37;
    assert AllLoggable([p]);
    assert ReadLog(MAGIC[..n] + LogBytes([p])) == [] && ReadLog(MAGIC[..n]) == [];
  }

  // ---- Sequence numbers ----

  /** The entries with consecutive sequence numbers from `first` and one timestamp, as AppendBatchAsync stamps them. */
  function Stamp(es: seq<Entry>, first: nat, timestamp: uint64): (r: seq<Entry>)
    ensures |r| == |es|
    ensures forall i :: 0 <= i < |es| ==> r[i] == es[i].(sequence := first + i, timestamp := timestamp)
  {
    if es == [] then []
    else [es[0].(sequence := first, timestamp := timestamp)] + Stamp(es[1..], first + 1, timestamp)
  }

  function MaxSequence(es: seq<Entry>): (m: nat)
    ensures forall i :: 0 <= i < |es| ==> es[i].sequence <= m
    ensures m == 0 || exists i :: 0 <= i < |es| && es[i].sequence == m
  {
    if es == [] then 0
    else
      var n := |es| - 1;
      var m := MaxSequence(es[..n]);
      assert es == es[..n] + [es[n]];
      if m < es[n].sequence then es[n].sequence else m
  }

  // ---- The code ----

  method SerializeRecord(e: Entry) returns (framed: Blob)
    ensures framed == Frame(e)
  {
    var rec := [e.kind];
    rec := rec + PutU64(e.sequence);
    rec := rec + PutU64(e.transaction);
    rec := rec + PutU64(e.timestamp);
    rec := rec + PutBlob(e.table);
    rec := rec + PutBlob(e.key);
    rec := rec + PutBlob(e.data);
    assert rec == RecordBytes(e) by { hide PutU64, PutBlob; }
    framed := PutU32(|rec|);
    framed := framed + rec;
  }

  method DeserializeRecord(rec: Blob) returns (entry: Option<Entry>)
    ensures entry == RecordOf(rec)
  {
    hide GetU64, GetBlob;
    var p := new Reader(rec);
    var kind := p.U8();
    if kind.None? { return None; }
    var sequence := p.U64();
    if sequence.None? { return None; }
    var transaction := p.U64();
    if transaction.None? { return None; }
    var timestamp := p.U64();
    if timestamp.None? { return None; }
    var table := p.Str();
    if table.None? { return None; }
    var key := p.Str();
    if key.None? { return None; }
    var data := p.Str();
    if data.None? { return None; }
    return Some(Entry(kind.value, sequence.value, transaction.value, timestamp.value,
                      table.value, key.value, data.value));
  }

  datatype PendingBatch = PendingBatch(bytes: Blob, done: nat)

  function BatchBytes(batches: seq<PendingBatch>): Blob {
    if batches == [] then [] else batches[0].bytes + BatchBytes(batches[1..])
  }

  /** promises after each batch's promise is set to ok. */
  function Resolve(promises: map<nat, bool>, batches: seq<PendingBatch>, ok: bool): map<nat, bool>
    decreases |batches|
  {
    if batches == [] then promises else Resolve(promises[batches[0].done := ok], batches[1..], ok)
  }

  method HighestSequence(entries: seq<Entry>) returns (max: nat)
    ensures max == MaxSequence(entries)
  {
    max := 0;
    for i := 0 to |entries|
      invariant max == MaxSequence(entries[..i])
    {
      assert entries[..i + 1][..i] == entries[..i];
      if max < entries[i].sequence {
        max := entries[i].sequence;
      }
    }
    assert entries[..|entries|] == entries;
  }

  /**
   The log object. A promise is a number; `promises` holds the ones already resolved.
   The writer thread is the method WriterPass, run between other calls.
   */
  class WriteAheadLog {
    var file: Blob                  // what the operating system holds
    var synced: nat                 // how much of it survives power loss
    const fsync: bool               // sync_mode == Fsync
    var nextSequence: nat
    var queue: seq<PendingBatch>
    var fatal: bool
    var nextPromise: nat
    var promises: map<nat, bool>

    ghost predicate Valid()
      reads this
    {
      synced <= |file|
    }

    /**
     Initialize: open the file, write the magic if it is empty, recover the sequence number. Nothing is
     synced; `synced` is how much of the file is on disk already.
     */
    constructor (file: Blob, synced: nat, fsync: bool)
      requires synced <= |file|
      ensures Valid() && !fatal && queue == [] && promises == map[]
      ensures this.fsync == fsync
      ensures this.file == Opened(file) && this.synced == synced && nextPromise == 0
      ensures nextSequence == MaxSequence(ReadLog(this.file)) + 1
    {
      hide ReadLog, MaxSequence;
      this.file := if file == [] then MAGIC else file;
      this.synced := synced;
      this.fsync := fsync;
      this.queue, this.fatal, this.nextPromise, this.promises := [], false, 0, map[];
      new;
      var entries := ReadAll();
      var max := HighestSequence(entries);
      nextSequence := max + 1;
    }

    method ReadAll() returns (result: seq<Entry>)
      ensures result == ReadLog(file)
    {
      hide RecordOf, GetU32;
      result := [];
      if |file| < |MAGIC| || file[..|MAGIC|] != MAGIC {
        return;
      }
      var left := file[|MAGIC|..];
      while |left| >= 4
        invariant ReadLog(file) == result + ReadFrames(left)
        decreases |left|
      {
        var length := GetU32(left);
        if length.None? { break; }
        GetU32Left(left);
        var (n, body) := length.value;
        if |body| < n {
          break;
        }
        var entry := DeserializeRecord(body[..n]);
        if entry.Some? && entry.value.sequence > 0 {
          result := result + [entry.value];
        }
        left := body[n..];
      }
      if |left| < 4 {
        GetU32Short(left);
      }
    }

    /** Stamps and frames a transaction's entries and enqueues them as one batch. */
    method AppendBatchAsync(entries: seq<Entry>, timestamp: uint64)
      returns (stamped: seq<Entry>, done: nat)
      requires Valid()
      modifies this
      ensures Valid() && file == old(file) && synced == old(synced) && fatal == old(fatal)
      ensures done == old(nextPromise) && nextPromise == done + 1
      ensures fatal ==> queue == old(queue) && nextSequence == old(nextSequence) && stamped == entries
                        && promises == old(promises)[done := false]
      ensures !fatal ==> stamped == Stamp(entries, old(nextSequence), timestamp)
                         && nextSequence == old(nextSequence) + |entries|
                         && queue == old(queue) + [PendingBatch(LogBytes(stamped), done)]
                         && promises == old(promises)
    {
      hide Frame, Stamp, LogBytes;
      done := nextPromise;
      nextPromise := nextPromise + 1;
      if fatal {
        promises := promises[done := false];
        return entries, done;
      }
      var blob: Blob := [];
      stamped := [];
      ghost var all := Stamp(entries, nextSequence, timestamp);
      NoLogBytes();
      for i := 0 to |entries|
        invariant stamped == all[..i]
        invariant blob == LogBytes(stamped)
        invariant nextSequence == old(nextSequence) + i
        invariant file == old(file) && synced == old(synced) && !fatal && queue == old(queue)
        invariant promises == old(promises) && nextPromise == done + 1
      {
        var e := entries[i].(sequence := nextSequence, timestamp := timestamp);
        nextSequence := nextSequence + 1;
        var framed := SerializeRecord(e);
        LogBytesAppend(stamped, e);
        stamped := stamped + [e];
        blob := blob + framed;
      }
      queue := queue + [PendingBatch(blob, done)];
    }

    /** Writes the blob in chunks of whatever size the system accepts, then syncs in Fsync mode. */
    method WriteAndSync(blob: Blob) returns (ok: bool)
      requires Valid()
      modifies this`file, this`synced
      ensures Valid()
      ensures old(file) <= file <= old(file) + blob
      ensures ok ==> file == old(file) + blob && (fsync ==> synced == |file|)
      ensures !ok || !fsync ==> synced == old(synced)
    {
      var written := 0;
      assert old(file) + blob[..0] == old(file);
      while written < |blob|
        invariant 0 <= written <= |blob|
        invariant file == old(file) + blob[..written] && synced == old(synced)
      {
        var failed: bool := *;
        if failed {
          assert old(file) + blob == old(file) + blob[..written] + blob[written..];
          return false;
        }
        var n :| 0 < n <= |blob| - written;
        assert blob[..written + n] == blob[..written] + blob[written..written + n];
        file := file + blob[written..written + n];
        written := written + n;
      }
      assert blob[..written] == blob;
      if fsync {
        var failed: bool := *;
        if failed {
          return false;
        }
        synced := |file|;
      }
      return true;
    }

    /** One turn of WriterLoop: drain everything queued, write it in one pass, resolve every promise. */
    method WriterPass() returns (ok: bool)
      requires Valid() && queue != []
      modifies this
      ensures Valid() && queue == [] && nextSequence == old(nextSequence) && nextPromise == old(nextPromise)
      ensures promises == Resolve(old(promises), old(queue), ok)
      ensures ok ==> file == old(file) + BatchBytes(old(queue)) && (fsync ==> synced == |file|)
      ensures old(file) <= file <= old(file) + BatchBytes(old(queue))
      ensures !ok || !fsync ==> synced == old(synced)
      ensures fatal == (old(fatal) || !ok)
    {
      var drained := queue;
      queue := [];
      var blob: Blob := [];
      for i := 0 to |drained|
        invariant blob + BatchBytes(drained[i..]) == BatchBytes(drained)
        invariant unchanged(this`file) && unchanged(this`synced) && unchanged(this`promises)
        invariant unchanged(this`fatal) && unchanged(this`nextSequence) && unchanged(this`nextPromise)
        invariant queue == []
      {
        assert drained[i..][1..] == drained[i + 1..];
        blob := blob + drained[i].bytes;
      }
      ok := WriteAndSync(blob);
      label Written:
      for i := 0 to |drained|
        invariant Resolve(promises, drained[i..], ok) == Resolve(old(promises), drained, ok)
        invariant file == old@Written(file) && synced == old@Written(synced) && fatal == old(fatal)
        invariant unchanged(this`nextSequence) && unchanged(this`nextPromise)
        invariant queue == []
      {
        assert drained[i..][1..] == drained[i + 1..];
        promises := promises[drained[i].done := ok];
      }
      if !ok {
        fatal := true;
      }
    }

    /** Drain: submit an empty barrier batch and wait until the writer has resolved it. */
    method Drain() returns (ok: bool)
      requires Valid()
      modifies this
      ensures Valid() && nextSequence == old(nextSequence)
      ensures old(fatal) ==> !ok && unchanged(this)
      ensures !old(fatal) ==> && nextPromise == old(nextPromise) + 1
                              && promises == Resolve(old(promises), old(queue) + [PendingBatch([], old(nextPromise))], ok)
      ensures !old(fatal) ==> queue == [] && fatal == !ok
                              && old(file) <= file <= old(file) + BatchBytes(old(queue))
                              && (ok ==> file == old(file) + BatchBytes(old(queue)) && (fsync ==> synced == |file|))
    {
      if fatal {
        return false;
      }
      BatchBytesConcat(queue, [PendingBatch([], nextPromise)]);
      queue := queue + [PendingBatch([], nextPromise)];
      nextPromise := nextPromise + 1;
      ok := WriterPass();
    }

    /** Whole-file truncation, after a snapshot that covers everything logged. */
    method Truncate(sequence: nat) returns (ok: bool)
      requires Valid()
      modifies this
      ensures Valid() && nextSequence == old(nextSequence)
      ensures ok <==> sequence + 1 >= old(nextSequence)
      ensures ok ==> file == MAGIC && synced == 0 && ReadLog(file) == []
      ensures ok && old(fatal) ==> fatal && queue == old(queue) && promises == old(promises)
                                   && nextPromise == old(nextPromise)
      ensures ok && !old(fatal) ==>
                && queue == [] && nextPromise == old(nextPromise) + 1
                && promises == Resolve(old(promises), old(queue) + [PendingBatch([], old(nextPromise))], !fatal)
      ensures !ok ==> file == old(file) && queue == old(queue)
    {
      if sequence < nextSequence - 1 {
        return false;
      }
      var drained := Drain();
      file, synced := [], 0;
      file := MAGIC;
      assert file[|MAGIC|..] == [];
      return true;
    }
  }

  lemma GetU32Left(s: Blob)
    requires GetU32(s).Some?
    ensures |GetU32(s).value.1| == |s| - 4
  {
  }

  lemma {:induction false} BatchBytesConcat(a: seq<PendingBatch>, b: seq<PendingBatch>)
    ensures BatchBytes(a + b) == BatchBytes(a) + BatchBytes(b)
    decreases |a|
  {
    if a == [] {
      assert a + b == b;
    } else {
      assert (a + b)[1..] == a[1..] + b;
      BatchBytesConcat(a[1..], b);
    }
  }
}
