/**
 The per-file content protocol: one bounded read, events to a visitor that may skip or quit at any time.
 Readers, clocks, snapshots and visitors answer arbitrarily, unless the visit is calm: then nothing interrupts,
 the file stays as it was scanned, reads hand out its content in pieces of any size, and the visitor goes on.
 */
module ContentVisit {
  import opened Wrappers
  import opened Report
  import Sha256

  type Content = seq<Sha256.byte>

  datatype Control = Continue | SkipFile | Quit

  datatype FileStatus = Selected | Binary | Changed

  datatype Event =
    | FileStart
    | Chunk(offset: nat, bytes: Content)
    | FileEnd(status: FileStatus, bytesRead: nat, contentHash: Option<string>, consumerSkipped: bool)

  /** An event and what the visitor replied. */
  datatype Step = Step(event: Event, reply: Control)

  type Trace = seq<Step>

  /** How far one file's visit has come, with the bytes delivered so far. */
  datatype Phase =
    | Idle
    | Reading(delivered: Content)
    | Skipping(delivered: Content)
    | Ended(delivered: Content)
    | Quitted(delivered: Content)

  function Bytes(phase: Phase): Content { if phase.Idle? then [] else phase.delivered }

  function After(reply: Control, delivered: Content): Phase {
    match reply
    case Continue => Reading(delivered)
    case SkipFile => Skipping(delivered)
    case Quit => Quitted(delivered)
  }

  /** The protocol: Start, chunks with contiguous offsets until a skip, End; nothing after End or a quit. */
  function Next(phase: Phase, step: Step): Option<Phase> {
    match (phase, step.event)
    case (Idle, FileStart) => Some(After(step.reply, []))
    case (Reading(delivered), Chunk(offset, bytes)) =>
      if offset == |delivered| && bytes != [] then Some(After(step.reply, delivered + bytes)) else None
    case (Reading(delivered), FileEnd(_, _, _, _)) =>
      Some(if step.reply == Quit then Quitted(delivered) else Ended(delivered))
    case (Skipping(delivered), FileEnd(_, _, _, _)) =>
      Some(if step.reply == Quit then Quitted(delivered) else Ended(delivered))
    case _ => None
  }

  /** The phase a trace leads to; `None` if it breaks the protocol. */
  function Run(trace: Trace): Option<Phase> {
    if trace == [] then Some(Idle)
    else
      var phase :- Run(trace[..|trace| - 1]);
      Next(phase, trace[|trace| - 1])
  }

  lemma RunSnoc(trace: Trace, step: Step)
    ensures Run(trace + [step]) == match Run(trace) case None => None case Some(phase) => Next(phase, step)
  {
    assert (trace + [step])[..|trace|] == trace;
  }

  datatype Options = Options(hash: bool, detectBinary: bool, maxFileBytes: nat, strict: bool, abortOnError: bool)

  datatype ReadStatus = Complete | Stopped | Grown | Interrupted(reason: ScanTermination)

  datatype VisitedStatus = FileSelected | FileBinary | FileConcurrent | FileStopped(reason: ScanTermination)

  datatype Inspection = Inspection(status: Option<VisitedStatus>, chunks: nat, bytesRead: nat, bytesEmitted: nat,
    consumerSkipped: bool, visitorQuit: bool)

  datatype Snapshot = Snapshot(bytes: nat, version: FileVersion)

  datatype IoError = IoError

  ghost function ChunkCount(trace: Trace): nat {
    if trace == [] then 0
    else ChunkCount(trace[..|trace| - 1]) + (if trace[|trace| - 1].event.Chunk? then 1 else 0)
  }

  lemma ChunkCountSnoc(trace: Trace, step: Step)
    ensures ChunkCount(trace + [step]) == ChunkCount(trace) + (if step.event.Chunk? then 1 else 0)
  {
    assert (trace + [step])[..|trace|] == trace;
  }

  function Min(a: nat, b: nat): nat { if a < b then a else b }

  /** The visit ended with the file selected. */
  predicate EndedSelected(trace: Trace) {
    trace != [] && trace[|trace| - 1].event.FileEnd? && trace[|trace| - 1].event.status == Selected
  }

  /** The bytes read have been searched for a zero byte, if that was asked for. */
  ghost predicate Inspected(physical: Content, bytesRead: nat, detectBinary: bool, binary: bool) {
    && bytesRead <= |physical|
    && (detectBinary && !binary ==> 0 !in physical[..bytesRead])
    && (binary ==> detectBinary && 0 in physical)
  }

  lemma InspectedMore(stream: Content, bytes: Content, data: Content, detectBinary: bool)
    requires bytes <= data && Inspected(stream + data, |stream|, detectBinary, false)
    ensures Inspected(stream + data, |stream| + |bytes|, detectBinary, detectBinary && 0 in bytes)
  {
    Prefix(stream, bytes, data);
    assert (stream + data)[..|stream|] == stream;
  }

  /** One file on its way through a content worker. */
  class FileVisit {
    const options: Options
    const scanned: ScannedFile
    const bufferLength: nat
    /** The content of the file, if the visit is calm. */
    const calm: Option<Content>

    var binary: bool
    var bytesRead: nat
    var bytesEmitted: nat
    var chunks: nat
    var consumerSkipped: bool
    var reachedEof: bool
    var visitorQuit: bool
    /** What the hasher has been fed; see `Sha256.FingerprintHasher` for its streaming. */
    var hashed: Content

    /** All bytes the file system has handed out, and all events. */
    var physical: Content
    var trace: Trace

    ghost function Cap(): nat {
      Min(scanned.bytes, options.maxFileBytes)
    }

    /** The protocol is kept and what was delivered is the stream so far, within the cap. */
    ghost predicate Valid()
      reads this
    {
      && Run(trace).Some? && chunks == ChunkCount(trace)
      && var phase := Run(trace).value;
        && Bytes(phase) <= physical && |Bytes(phase)| == bytesEmitted <= Cap() && |physical| <= Cap() + 1
        && (phase.Idle? ==> physical == [])
        && (visitorQuit <==> phase.Quitted?)
        && (phase.Reading? ==> !consumerSkipped)
        && (phase.Skipping? ==> consumerSkipped)
        && Inspected(physical, bytesRead, options.detectBinary, binary)
        && (calm.Some? ==> !consumerSkipped && !visitorQuit && physical <= calm.value)
    }

    /** A calm visit of a file that fits. */
    predicate CalmFile() {
      calm.Some? && |calm.value| == scanned.bytes <= options.maxFileBytes && bufferLength > 0
    }

    /** A calm file ends as binary if a zero byte is looked for and found, else selected with all its content. */
    ghost predicate CalmEnd(status: VisitedStatus)
      requires calm.Some?
      reads this
    {
      if options.detectBinary && 0 in calm.value then status == FileBinary
      else
        && status == FileSelected && physical == calm.value
        && Run(trace).Some? && Bytes(Run(trace).value) == calm.value
        && EndsWith(Selected, if options.hash then Some(Sha256.Digest(calm.value)) else None)
    }

    /** No End event yet. */
    ghost predicate NoEnd()
      reads this
    {
      trace != [] && !trace[|trace| - 1].event.FileEnd?
    }

    /** While chunks are read: everything read was inspected, hashed and, unless skipped, delivered. */
    ghost predicate Streaming()
      reads this
    {
      && Valid() && !binary && !visitorQuit
      && bytesRead == |physical| <= Cap()
      && hashed == (if options.hash then physical else [])
      && (Run(trace).value.Reading? || Run(trace).value.Skipping?)
      && (Run(trace).value.Reading? ==> Bytes(Run(trace).value) == physical)
    }

    constructor (options: Options, scanned: ScannedFile, bufferLength: nat, calm: Option<Content>)
      ensures Valid() && trace == [] && physical == [] && hashed == [] && bytesRead == 0
      ensures !binary && !consumerSkipped && !visitorQuit && !reachedEof && fresh(this)
      ensures this.options == options && this.scanned == scanned && this.bufferLength == bufferLength && this.calm == calm
    {
      this.options, this.scanned, this.bufferLength, this.calm := options, scanned, bufferLength, calm;
      binary, bytesRead, bytesEmitted, chunks := false, 0, 0, 0;
      consumerSkipped, reachedEof, visitorQuit, hashed := false, false, false, [];
      physical, trace := [], [];
    }

    /** The visitor replies as it likes. */
    method Call(event: Event) returns (reply: Control)
      modifies `trace
      ensures trace == old(trace) + [Step(event, reply)] && (calm.Some? ==> reply == Continue)
      ensures ChunkCount(trace) == old(ChunkCount(trace)) + (if event.Chunk? then 1 else 0)
    {
      ChunkCountSnoc(trace, Step(event, Continue));
      ChunkCountSnoc(trace, Step(event, SkipFile));
      ChunkCountSnoc(trace, Step(event, Quit));
      reply := *;
      if calm.Some? {
        reply := Continue;
      }
      trace := trace + [Step(event, reply)];
    }

    /** One physical read: an error, the end of the file, or up to `limit` bytes. */
    method Read(limit: nat) returns (data: Result<Content, IoError>)
      requires limit > 0 && (calm.Some? ==> physical <= calm.value)
      modifies `physical
      ensures data.Ok? ==> |data.value| <= limit && physical == old(physical) + data.value
      ensures data.Err? ==> physical == old(physical)
      ensures calm.Some? ==> data.Ok? && physical <= calm.value && (data.value == [] <==> old(physical) == calm.value)
    {
      data := *;
      if calm.Some? {
        var left := calm.value[|physical|..];
        var size: nat := *;
        data := Ok(if left == [] then [] else left[..if 0 < size <= |left| then size else 1]);
      }
      if data.Ok? && |data.value| > limit {
        data := Ok(data.value[..limit]);
      }
      if data.Ok? {
        physical := physical + data.value;
      }
    }

    /** `interrupted`: cancellation first, then the deadline. */
    method PollInterrupt() returns (reason: Option<ScanTermination>, ghost isCancelled: bool, ghost isExpired: bool)
      ensures calm.Some? ==> reason.None?
      ensures calm.None? ==>
        && (reason == Some(Cancelled) <==> isCancelled)
        && (reason == Some(Timeout) <==> isExpired && !isCancelled)
        && (reason == None <==> !isExpired && !isCancelled)
    {
      var cancelled: bool := *;
      var expired: bool := *;
      isCancelled, isExpired := cancelled, expired;
      reason := if calm.Some? then None else if cancelled then Some(Cancelled) else if expired then Some(Timeout) else None;
    }

    method Snap() returns (snapshot: Result<Snapshot, IoError>)
      ensures calm.Some? ==> snapshot == Ok(Snapshot(scanned.bytes, scanned.version))
    {
      snapshot := *;
      if calm.Some? {
        snapshot := Ok(Snapshot(scanned.bytes, scanned.version));
      }
    }

    /** Between a physical read and its inspection: `data` is new, everything before it was dealt with. */
    ghost predicate InFlight(stream: Content, data: Content)
      reads this
    {
      && Valid() && !binary && !visitorQuit
      && physical == stream + data && bytesRead == |stream|
      && hashed == (if options.hash then stream else [])
      && (Run(trace).value.Reading? || Run(trace).value.Skipping?)
      && (Run(trace).value.Reading? ==> Bytes(Run(trace).value) == stream)
    }

    /** The closure of `read_chunks`: inspects, hashes and delivers one chunk; false stops the read. */
    method OnChunk(bytes: Content, ghost stream: Content, ghost data: Content) returns (keep: bool)
      requires InFlight(stream, data) && NoEnd()
      requires bytes != [] && bytes <= data && |stream| + |bytes| <= Cap()
      modifies `binary, `bytesRead, `bytesEmitted, `chunks, `consumerSkipped, `visitorQuit, `hashed, `trace
      ensures Valid() && NoEnd() && bytesRead == |stream| + |bytes|
      ensures options.hash && !binary ==> hashed == stream + bytes
      ensures keep ==>
        && !binary && !visitorQuit && (!options.hash ==> hashed == [])
        && (Run(trace).value.Reading? || Run(trace).value.Skipping?)
        && (Run(trace).value.Reading? ==> Bytes(Run(trace).value) == stream + bytes)
      ensures !keep ==> StopReason()
      ensures keep <==> !binary && !visitorQuit && (consumerSkipped ==> options.hash || options.detectBinary)
    {
      hide Run, Next, Inspected, ChunkCount;
      var offset := bytesRead;
      InspectedMore(stream, bytes, data, options.detectBinary);
      bytesRead := bytesRead + |bytes|;
      if options.detectBinary && 0 in bytes {
        binary := true;
        return false;
      }
      if options.hash {
        hashed := hashed + bytes;
      }
      if consumerSkipped {
        return options.hash || options.detectBinary;
      }
      chunks := chunks + 1;
      bytesEmitted := bytesEmitted + |bytes|;
      Prefix(stream, bytes, data);
      ghost var was := trace;
      var reply := Call(Chunk(offset, bytes));
      ChunkStep(was, stream, bytes, reply);
      match reply
      case Continue => keep := true;
      case SkipFile =>
        consumerSkipped := true;
        keep := options.hash || options.detectBinary;
      case Quit =>
        visitorQuit := true;
        keep := false;
    }

    /** Why a chunk may stop the read; unless the visitor quit, the file can still be ended. */
    ghost predicate StopReason()
      reads this
    {
      && (visitorQuit || binary || (consumerSkipped && !options.hash && !options.detectBinary))
      && (!visitorQuit ==> Run(trace).Some? && (Run(trace).value.Reading? || Run(trace).value.Skipping?))
    }

    /** What every way out of the read leaves behind. */
    ghost predicate AfterRead(status: ReadStatus)
      reads this
    {
      && Valid() && bytesRead <= |physical|
      && (options.hash && !binary ==> hashed == physical[..bytesRead])
      && (!visitorQuit ==> Run(trace).value.Reading? || Run(trace).value.Skipping?)
      && (status.Complete? || status.Interrupted? ==> Streaming())
      && (status.Grown? ==> !binary && !visitorQuit && (|physical| == Cap() + 1 || bufferLength == 0))
      && (status.Stopped? ==> StopReason())
      && (status.Interrupted? ==> calm.None? && (status.reason == Cancelled || status.reason == Timeout))
      && (CalmFile() ==> (status.Complete? && physical == calm.value) || (status.Stopped? && binary))
    }

    /** `read_bounded`: at most one byte beyond the cap is physically read, and it is never delivered. */
    method ReadBounded() returns (r: Result<ReadStatus, IoError>)
      requires Streaming() && NoEnd()
      modifies `binary, `bytesRead, `bytesEmitted, `chunks, `consumerSkipped, `visitorQuit, `hashed, `trace, `physical
      ensures Valid() && NoEnd() && (r.Err? ==> !visitorQuit && calm.None?) && (r.Ok? ==> AfterRead(r.value))
    {
      hide Run;
      var cap := if scanned.bytes < options.maxFileBytes then scanned.bytes else options.maxFileBytes;
      var ioLimit := cap + 1;
      var count := bytesRead;
      while true
        invariant Streaming() && NoEnd() && count == bytesRead
        decreases ioLimit - count
      {
        var interrupted, _, _ := PollInterrupt();
        if interrupted.Some? {
          return Ok(Interrupted(interrupted.value));
        }
        if count >= ioLimit {
          return Ok(Grown);
        }
        var remaining := if ioLimit - count < bufferLength then ioLimit - count else bufferLength;
        if remaining == 0 {
          return Ok(Grown);
        }
        ghost var stream := physical;
        var read := ReadMore(remaining);
        if read.Err? {
          return Err(IoError);
        }
        var data := read.value;
        if data == [] {
          return Ok(Complete);
        }
        var left := Deliver(data, stream, cap - count);
        count := count + |data|;
        if left.Some? {
          return Ok(left.value);
        }
      }
    }

    /** Passes on what fits of the bytes just read; `Some` ends the read. */
    method Deliver(data: Content, ghost stream: Content, room: nat) returns (left: Option<ReadStatus>)
      requires InFlight(stream, data) && NoEnd() && data != []
      requires room == Cap() - |stream| && |data| <= room + 1
      modifies `binary, `bytesRead, `bytesEmitted, `chunks, `consumerSkipped, `visitorQuit, `hashed, `trace
      ensures NoEnd() && (left.None? ==> Streaming() && bytesRead == |stream| + |data|)
      ensures left.Some? ==> AfterRead(left.value)
    {
      hide Run;
      assert stream[..|stream|] == stream && (stream + data)[..|stream|] == stream;
      var emit := if room < |data| then room else |data|;
      if emit > 0 {
        var keep := OnChunk(data[..emit], stream, data);
        assert physical[..bytesRead] == stream + data[..emit];
        if !keep {
          return Some(Stopped);
        }
      }
      if |data| > room {
        return Some(Grown);
      }
      assert data[..emit] == data;
      left := None;
    }

    /** One physical read; the bytes before it stay dealt with. */
    method ReadMore(limit: nat) returns (read: Result<Content, IoError>)
      requires Streaming() && 0 < limit && bytesRead + limit <= Cap() + 1
      modifies `physical
      ensures read.Err? ==> physical == old(physical) && Streaming() && calm.None?
      ensures calm.Some? && read.Ok? ==> (read.value == [] <==> old(physical) == calm.value)
      ensures read.Ok? ==> |read.value| <= limit && physical == old(physical) + read.value && InFlight(old(physical), read.value)
      ensures read.Ok? && read.value == [] ==> Streaming()
    {
      hide Run;
      ghost var stream := physical;
      read := Read(limit);
      if read.Ok? && read.value == [] {
        assert stream + [] == stream;
      }
    }

    /** Why a file that goes on to its end was not read to the end: a zero byte was found, the consumer has skipped it
        and nothing else needs its bytes, it is longer than expected, or there is no buffer. */
    ghost predicate LeftOff()
      reads this
    {
      || binary || (consumerSkipped && !options.hash && !options.detectBinary)
      || |physical| == Cap() + 1 || bufferLength == 0
    }

    /** `read_chunks`: `Some` ends the visit of the file without an End event. */
    method ReadChunks() returns (r: Result<Option<(Option<ScanTermination>, bool)>, IoError>)
      requires Valid() && NoEnd() && !binary && !visitorQuit && physical == [] && hashed == [] && bytesRead == 0
      requires Run(trace).value.Reading? || Run(trace).value.Skipping?
      modifies `binary, `bytesRead, `bytesEmitted, `chunks, `consumerSkipped, `visitorQuit, `hashed, `trace, `physical, `reachedEof
      ensures Valid() && NoEnd() && (r.Err? ==> !visitorQuit && calm.None?)
      ensures CalmFile() ==> r == Ok(None) && (binary || (reachedEof && physical == calm.value))
      ensures r.Ok? && r.value.Some? ==> r.value.value.1 == visitorQuit && (r.value.value.0.None? <==> visitorQuit)
      ensures r.Ok? && r.value.None? ==>
        && !visitorQuit && (Run(trace).value.Reading? || Run(trace).value.Skipping?)
        && bytesRead <= |physical| && (options.hash && !binary ==> hashed == physical[..bytesRead])
        && (reachedEof ==> Streaming()) && (!reachedEof ==> LeftOff())
      ensures old(consumerSkipped) && !options.hash && !options.detectBinary ==> r == Ok(None) && physical == [] && !reachedEof
    {
      hide Run;
      reachedEof := false;
      if consumerSkipped && !options.hash && !options.detectBinary {
        return Ok(None);
      }
      var status :- ReadBounded();
      match status
      case Complete =>
        reachedEof := true;
        return Ok(None);
      case Stopped =>
        return Ok(if visitorQuit then Some((None, true)) else None);
      case Grown =>
        return Ok(if visitorQuit then Some((None, true)) else None);
      case Interrupted(reason) =>
        return Ok(Some((Some(reason), visitorQuit)));
    }

    /** `emit_end`. */
    method EmitEnd(status: FileStatus, contentHash: Option<string>)
      requires Valid() && (Run(trace).value.Reading? || Run(trace).value.Skipping?) && !visitorQuit
      modifies `trace, `visitorQuit
      ensures Valid()
      ensures |trace| == |old(trace)| + 1 && trace[..|old(trace)|] == old(trace)
      ensures trace[|trace| - 1].event == FileEnd(status, bytesRead, contentHash, consumerSkipped)
      ensures Bytes(Run(trace).value) == old(Bytes(Run(trace).value))
    {
      var end := FileEnd(status, bytesRead, contentHash, consumerSkipped);
      hide Run, ChunkCount, Inspected;
      ghost var was := trace;
      var reply := Call(end);
      EndStep(was, end, reply);
      visitorQuit := reply == Quit;
    }

    function Outcome(status: Option<VisitedStatus>): Inspection
      reads this
    {
      Inspection(status, chunks, bytesRead, bytesEmitted, consumerSkipped, visitorQuit)
    }

    /** The last event is the End that belongs to the status. */
    ghost predicate EndsWith(status: FileStatus, contentHash: Option<string>)
      reads this
    {
      trace != [] && trace[|trace| - 1].event == FileEnd(status, bytesRead, contentHash, consumerSkipped)
    }

    /** What a selected file's End event promises. */
    ghost predicate SelectedOk(before: Snapshot)
      reads this
    {
      && bytesRead <= |physical|
      && EndsWith(Selected, if options.hash then Some(Sha256.Digest(physical[..bytesRead])) else None)
      && (reachedEof ==> bytesRead == before.bytes == |physical|)
      && (reachedEof && !consumerSkipped ==> Run(trace).Some? && Bytes(Run(trace).value) == physical)
      && (!reachedEof ==> !binary && LeftOff())
    }

    /** The file is not as it was at the Start event. */
    predicate HasChanged(before: Snapshot, after: Snapshot)
      reads this
    {
      || (reachedEof && bytesRead != before.bytes)
      || (options.strict && (before.bytes != after.bytes || !Reusable(before.version, after.version)))
    }

    /** `finish_visit`. */
    method FinishVisit(before: Snapshot) returns (r: Result<Inspection, IoError>, ghost after: Snapshot)
      requires Valid() && !visitorQuit && (Run(trace).value.Reading? || Run(trace).value.Skipping?)
      requires bytesRead <= |physical| && (options.hash && !binary ==> hashed == physical[..bytesRead])
      requires (reachedEof ==> Streaming()) && (!reachedEof ==> LeftOff())
      modifies `trace, `visitorQuit
      ensures Valid() && (r.Err? ==> !visitorQuit && trace == old(trace))
      ensures r.Ok? ==> r.value == Outcome(r.value.status) && r.value.status.Some?
      ensures r.Ok? ==>
        match r.value.status.value
        case FileSelected => !HasChanged(before, after) && !binary && SelectedOk(before)
        case FileBinary => !HasChanged(before, after) && binary && EndsWith(Binary, None)
        case FileConcurrent => HasChanged(before, after) && EndsWith(Changed, None)
        case FileStopped(_) => false
      ensures calm.Some? ==> r.Ok? && after == Snapshot(scanned.bytes, scanned.version)
      ensures Bytes(Run(trace).value) == old(Bytes(Run(trace).value))
    {
      hide Run, Sha256.Digest, Next, Bytes, Reusable;
      after := Snapshot(scanned.bytes, scanned.version);
      var changed := reachedEof && bytesRead != before.bytes;
      if options.strict {
        var now := Snap();
        if now.Err? {
          r := Err(IoError);
          return;
        }
        after := now.value;
        changed := changed || before.bytes != now.value.bytes || !Reusable(before.version, now.value.version);
      }
      if changed {
        EmitEnd(Changed, None);
        r := Ok(Outcome(Some(FileConcurrent)));
        return;
      }
      if binary {
        EmitEnd(Binary, None);
        r := Ok(Outcome(Some(FileBinary)));
        return;
      }
      var contentHash := if options.hash then Some(Sha256.Digest(hashed)) else None;
      assert reachedEof && !consumerSkipped ==> Bytes(Run(trace).value) == physical;
      EmitEnd(Selected, contentHash);
      r := Ok(Outcome(Some(FileSelected)));
    }

    /** `inspect_with_visitor`. */
    method Inspect() returns (r: Result<Inspection, IoError>, ghost before: Snapshot)
      requires Valid() && trace == [] && physical == [] && hashed == [] && bytesRead == 0
      requires !binary && !consumerSkipped && !visitorQuit && !reachedEof
      modifies this
      ensures Valid() && (r.Err? ==> !visitorQuit)
      ensures r.Ok? ==> r.value == Outcome(r.value.status)
      ensures r.Ok? && r.value.status.Some? && r.value.status.value.FileStopped? ==> !visitorQuit
      ensures r.Ok? && r.value.status.None? ==> visitorQuit
      ensures (r.Ok? && r.value.status == Some(FileSelected)) <==> EndedSelected(trace)
      ensures r.Ok? && r.value.status == Some(FileSelected) ==> before.bytes == scanned.bytes && SelectedOk(before)
      ensures CalmFile() && Reusable(scanned.version, scanned.version) ==>
        r.Ok? && r.value.status.Some? && CalmEnd(r.value.status.value)
    {
      hide Run, Sha256.Digest, Reusable;
      before := Snapshot(0, FileVersion(None, None, None));
      var first := Snap();
      if first.Err? {
        r := Err(IoError);
        return;
      }
      var found := first.value;
      before := found;
      if found.bytes != scanned.bytes || !Reusable(scanned.version, found.version) || found.bytes > options.maxFileBytes {
        r := Ok(Inspection(Some(FileConcurrent), 0, 0, 0, false, false));
        return;
      }
      var reply := Start();
      if reply == SkipFile {
        consumerSkipped := true;
      } else if reply == Quit {
        visitorQuit := true;
        r := Ok(Outcome(None));
        return;
      }
      r := InspectContent(found);
    }

    /** The part behind the Start event. */
    method InspectContent(before: Snapshot) returns (r: Result<Inspection, IoError>)
      requires Valid() && NoEnd() && !binary && !visitorQuit && physical == [] && hashed == [] && bytesRead == 0
      requires Run(trace).value.Reading? || Run(trace).value.Skipping?
      modifies this
      ensures Valid() && (r.Err? ==> !visitorQuit)
      ensures r.Ok? ==> r.value == Outcome(r.value.status)
      ensures r.Ok? && r.value.status.Some? && r.value.status.value.FileStopped? ==> !visitorQuit
      ensures r.Ok? && r.value.status.None? ==> visitorQuit
      ensures (r.Ok? && r.value.status == Some(FileSelected)) <==> EndedSelected(trace)
      ensures r.Ok? && r.value.status == Some(FileSelected) ==> SelectedOk(before)
      ensures CalmFile() && before == Snapshot(scanned.bytes, scanned.version) && Reusable(before.version, before.version) ==>
        r.Ok? && r.value.status.Some? && CalmEnd(r.value.status.value)
    {
      hide Run, Sha256.Digest, Bytes, Reusable;
      var stopped := ReadChunks();
      if stopped.Err? {
        r := Err(IoError);
        return;
      }
      if stopped.value.Some? {
        var (termination, quit) := stopped.value.value;
        r := Ok(Outcome(if termination.Some? then Some(FileStopped(termination.value)) else None));
        return;
      }
      ghost var after;
      assert physical[..|physical|] == physical;
      r, after := FinishVisit(before);
      if CalmFile() && binary { assert 0 in calm.value[..|physical|]; }
    }

    method Start() returns (reply: Control)
      requires trace == []
      modifies `trace
      ensures trace == [Step(FileStart, reply)] && Run(trace) == Some(After(reply, []))
      ensures calm.Some? ==> reply == Continue
    {
      reply := Call(FileStart);
      RunSnoc([], Step(FileStart, reply));
    }
  }

  lemma ChunkStep(trace: Trace, delivered: Content, bytes: Content, reply: Control)
    requires Run(trace) == Some(Reading(delivered)) && bytes != []
    ensures Run(trace + [Step(Chunk(|delivered|, bytes), reply)]) == Some(After(reply, delivered + bytes))
  {
    RunSnoc(trace, Step(Chunk(|delivered|, bytes), reply));
  }

  lemma EndStep(trace: Trace, end: Event, reply: Control)
    requires Run(trace).Some? && (Run(trace).value.Reading? || Run(trace).value.Skipping?) && end.FileEnd?
    ensures Run(trace + [Step(end, reply)])
         == Some(if reply == Quit then Quitted(Run(trace).value.delivered) else Ended(Run(trace).value.delivered))
  {
    RunSnoc(trace, Step(end, reply));
  }

  lemma Prefix(stream: Content, bytes: Content, data: Content)
    requires bytes <= data
    ensures stream + bytes <= stream + data
    ensures (stream + data)[..|stream| + |bytes|] == stream + bytes
    ensures 0 !in stream + bytes <==> 0 !in stream && 0 !in bytes
    ensures 0 in bytes ==> 0 in stream + data
  {
    assert data == bytes + data[|bytes|..];
    assert stream + data == stream + bytes + data[|bytes|..];
  }

  // All files of one worker --------------------------------------------------------------------

  /** What one file's visit left behind; `failed` visits ended in an I/O error, others with a status unless the
      visitor quit. */
  datatype FileRecord = FileRecord(
    file: ScannedFile, trace: Trace, physical: Content, failed: bool, status: Option<VisitedStatus>)

  /** Where errors abort, the file ends the visit: it could not be read, or it has changed. */
  ghost predicate Aborts(record: FileRecord) { record.failed || record.status == Some(FileConcurrent) }

  /** The file was left in the middle, by a cancellation or at the deadline. */
  ghost predicate IsStopped(record: FileRecord) { record.status.Some? && record.status.value.FileStopped? }

  ghost function AbortError(record: FileRecord): ScanError {
    if record.failed then IoFailure(record.file.relative) else ConcurrentModification(record.file.relative)
  }

  ghost predicate RecordOk(options: Options, record: FileRecord) {
    var cap := Min(record.file.bytes, options.maxFileBytes);
    && Run(record.trace).Some?
    && Bytes(Run(record.trace).value) <= record.physical
    && |Bytes(Run(record.trace).value)| <= cap && |record.physical| <= cap + 1
  }

  ghost predicate HasQuit(record: FileRecord) { Run(record.trace).Some? && Run(record.trace).value.Quitted? }

  ghost function Delivered(record: FileRecord): nat {
    if Run(record.trace).Some? then |Bytes(Run(record.trace).value)| else 0
  }

  /** Bytes delivered by the visits that did not fail. */
  ghost function DeliveredTotal(records: seq<FileRecord>): nat {
    if records == [] then 0
    else
      var last := records[|records| - 1];
      DeliveredTotal(records[..|records| - 1]) + (if last.failed then 0 else Delivered(last))
  }

  ghost function SelectedTotal(records: seq<FileRecord>): nat {
    if records == [] then 0
    else SelectedTotal(records[..|records| - 1]) + (if EndedSelected(records[|records| - 1].trace) then 1 else 0)
  }

  datatype VisitedFiles = VisitedFiles(completed: nat, bytesEmitted: nat, visitorQuit: bool, termination: Option<ScanTermination>)

  datatype ScanError = IoFailure(path: string) | ConcurrentModification(path: string)

  /** `visit_files`.  No event of any file follows a quit, every file keeps the protocol, and the byte
      count covers exactly the files whose visit did not end in an I/O error.  If every visit is calm, every
      file is visited and exactly those without a zero byte that is looked for are completed. */
  method VisitFiles(files: seq<ScannedFile>, options: Options, bufferLength: nat, calm: Option<seq<Content>>)
    returns (r: Result<VisitedFiles, ScanError>, records: seq<FileRecord>)
    requires calm.Some? ==> |calm.value| == |files|
    ensures InOrder(files, options, records)
    ensures r.Ok? ==> r.value.bytesEmitted == DeliveredTotal(records) && r.value.completed == SelectedTotal(records)
    ensures r.Ok? ==> (r.value.visitorQuit <==> exists i | 0 <= i < |records| :: HasQuit(records[i]))
    ensures r.Ok? && |records| < |files| ==> r.value.termination.Some?
    ensures r.Ok? && options.abortOnError ==> forall record | record in records :: !Aborts(record)
    ensures r.Ok? && r.value.visitorQuit ==> r.value.termination == Some(Cancelled)
    ensures forall i | 0 <= i < |records| && IsStopped(records[i]) ::
      i == |records| - 1 && r.Ok? && r.value.termination == Some(records[i].status.value.reason)
    ensures r.Err? ==>
      && options.abortOnError && records != [] && Aborts(records[|records| - 1])
      && r.error == AbortError(records[|records| - 1])
    ensures calm.Some? && CalmFiles(files, options, bufferLength, calm.value) ==>
      && |records| == |files| && Whole(records, calm.value)
      && r == Ok(VisitedFiles(TextCount(options, calm.value), DeliveredTotal(records), false, None))
  {
    hide Run, RecordOk, HasQuit, FileVisit.Valid, EndedSelected, CalmContent, CalmFiles, IsText, TextCount, Whole;
    hide Orderly, InOrder, Calmly, Delivers, Delivered, DeliveredTotal, SelectedTotal;
    var visited := VisitedFiles(0, 0, false, None);
    records := [];
    NothingVisited(files, options, bufferLength, calm);
    for i := 0 to |files|
      invariant |records| == i && Orderly(files, options, records)
      invariant visited.bytesEmitted == DeliveredTotal(records) && visited.completed == SelectedTotal(records)
      invariant !visited.visitorQuit && visited.termination.None?
      invariant options.abortOnError ==> forall record | record in records :: !Aborts(record)
      invariant forall record | record in records :: !IsStopped(record)
      invariant calm.Some? ==> Calmly(files, options, bufferLength, calm.value, records, visited.completed)
    {
      var reason := StopReason();
      if reason.Some? && calm.None? {
        VisitsEnd(files, options, records);
        r := Ok(visited.(termination := reason));
        return;
      }
      var outcome, record := VisitFile(files[i], options, bufferLength, if calm.Some? then Some(calm.value[i]) else None);
      ghost var done := records;
      records := records + [record];
      TotalsOne(done, record);
      VisitedOne(files, options, done, record);
      if calm.Some? {
        CalmOne(files, options, bufferLength, calm.value, done, visited.completed, outcome, record);
      }
      if outcome.Err? {
        if options.abortOnError {
          r := Err(IoFailure(files[i].relative));
          return;
        }
      } else {
        var result := outcome.value;
        visited := visited.(bytesEmitted := visited.bytesEmitted + result.bytesEmitted);
        if result.status == Some(FileSelected) {
          visited := visited.(completed := visited.completed + 1);
        } else if result.status == Some(FileConcurrent) && options.abortOnError {
          r := Err(ConcurrentModification(files[i].relative));
          return;
        } else if result.status.Some? && result.status.value.FileStopped? {
          r := Ok(visited.(termination := Some(result.status.value.reason)));
          return;
        }
        if result.visitorQuit {
          assert HasQuit(records[i]);
          r := Ok(visited.(visitorQuit := true, termination := Some(Cancelled)));
          return;
        }
        var cancelled: bool := *;
        if result.status.None? && cancelled && calm.None? {
          r := Ok(visited.(termination := Some(Cancelled)));
          return;
        }
      }
    }
    VisitsEnd(files, options, records);
    r := Ok(visited);
    if calm.Some? { CalmAll(files, options, bufferLength, calm.value, records, visited.completed); }
  }

  /** The records so far: one per file, in order, none of them quit. */
  ghost predicate Orderly(files: seq<ScannedFile>, options: Options, records: seq<FileRecord>) {
    && |records| <= |files|
    && forall i | 0 <= i < |records| ::
         records[i].file == files[i] && RecordOk(options, records[i]) && !HasQuit(records[i])
  }

  lemma TotalsOne(done: seq<FileRecord>, record: FileRecord)
    ensures DeliveredTotal(done + [record]) == DeliveredTotal(done) + (if record.failed then 0 else Delivered(record))
    ensures SelectedTotal(done + [record]) == SelectedTotal(done) + (if EndedSelected(record.trace) then 1 else 0)
  {
    var records := done + [record];
    assert records[|records| - 1] == record && records[..|records| - 1] == done;
  }

  /** As `Orderly`, but the last one may have quit. */
  ghost predicate InOrder(files: seq<ScannedFile>, options: Options, records: seq<FileRecord>) {
    && |records| <= |files|
    && (forall i | 0 <= i < |records| :: records[i].file == files[i] && RecordOk(options, records[i]))
    && forall i | 0 <= i < |records| && HasQuit(records[i]) :: i == |records| - 1
  }

  lemma VisitedOne(files: seq<ScannedFile>, options: Options, done: seq<FileRecord>, record: FileRecord)
    requires Orderly(files, options, done) && |done| < |files|
    requires record.file == files[|done|] && RecordOk(options, record)
    ensures InOrder(files, options, done + [record])
    ensures HasQuit(record) <==> exists i | 0 <= i <= |done| :: HasQuit((done + [record])[i])
    ensures !HasQuit(record) ==> Orderly(files, options, done + [record])
  {
    hide RecordOk, HasQuit;
    var records := done + [record];
    assert records[|done|] == record && forall i | 0 <= i < |done| :: records[i] == done[i];
  }

  lemma VisitsEnd(files: seq<ScannedFile>, options: Options, records: seq<FileRecord>)
    requires Orderly(files, options, records)
    ensures InOrder(files, options, records) && !exists i | 0 <= i < |records| :: HasQuit(records[i])
  {
  }

  /** A file that is read as a whole was delivered as a whole. */
  ghost predicate Whole(records: seq<FileRecord>, contents: seq<Content>) {
    && |records| <= |contents|
    && forall i | 0 <= i < |records| && EndedSelected(records[i].trace) :: Delivers(records[i], contents[i])
  }

  ghost predicate Calmly(files: seq<ScannedFile>, options: Options, bufferLength: nat, contents: seq<Content>,
                         records: seq<FileRecord>, completed: nat)
    requires |contents| == |files|
  {
    CalmFiles(files, options, bufferLength, contents) ==>
      |records| <= |contents| && completed == TextCount(options, contents[..|records|]) && Whole(records, contents)
  }

  lemma NothingVisited(files: seq<ScannedFile>, options: Options, bufferLength: nat, calm: Option<seq<Content>>)
    requires calm.Some? ==> |calm.value| == |files|
    ensures Orderly(files, options, [])
    ensures calm.Some? ==> Calmly(files, options, bufferLength, calm.value, [], 0)
    ensures DeliveredTotal([]) == 0 && SelectedTotal([]) == 0
  {
  }

  lemma CalmOne(files: seq<ScannedFile>, options: Options, bufferLength: nat, contents: seq<Content>,
                done: seq<FileRecord>, completed: nat, outcome: Result<Inspection, IoError>, record: FileRecord)
    requires |contents| == |files| && |done| < |files|
    requires Calmly(files, options, bufferLength, contents, done, completed)
    requires CalmContent(files[|done|], options, bufferLength, contents[|done|]) ==>
      && outcome.Ok? && !outcome.value.visitorQuit
      && outcome.value.status == Some(if IsText(options, contents[|done|]) then FileSelected else FileBinary)
      && (EndedSelected(record.trace) ==> Delivers(record, contents[|done|]))
    ensures CalmFiles(files, options, bufferLength, contents) ==>
      outcome.Ok? && !outcome.value.visitorQuit && outcome.value.status in {Some(FileSelected), Some(FileBinary)}
    ensures Calmly(files, options, bufferLength, contents, done + [record],
                   if outcome.Ok? && outcome.value.status == Some(FileSelected) then completed + 1 else completed)
  {
    hide EndedSelected, Delivers;
    var i := |done|;
    assert contents[..i + 1][..i] == contents[..i] && contents[..i + 1][i] == contents[i];
    if CalmFiles(files, options, bufferLength, contents) {
      assert CalmContent(files[i], options, bufferLength, contents[i]);
      assert forall j | 0 <= j < i :: (done + [record])[j] == done[j];
    }
  }

  lemma CalmAll(files: seq<ScannedFile>, options: Options, bufferLength: nat, contents: seq<Content>,
                records: seq<FileRecord>, completed: nat)
    requires |contents| == |files| == |records|
    requires Calmly(files, options, bufferLength, contents, records, completed)
    ensures CalmFiles(files, options, bufferLength, contents) ==>
      completed == TextCount(options, contents) && Whole(records, contents)
  {
    assert contents[..|records|] == contents;
  }

  /** A file that fits and whose version can be compared with itself. */
  predicate CalmContent(file: ScannedFile, options: Options, bufferLength: nat, content: Content) {
    |content| == file.bytes <= options.maxFileBytes && bufferLength > 0 && Reusable(file.version, file.version)
  }

  predicate CalmFiles(files: seq<ScannedFile>, options: Options, bufferLength: nat, contents: seq<Content>)
    requires |contents| == |files|
  {
    forall i | 0 <= i < |files| :: CalmContent(files[i], options, bufferLength, contents[i])
  }

  predicate IsText(options: Options, content: Content) { !(options.detectBinary && 0 in content) }

  function TextCount(options: Options, contents: seq<Content>): nat {
    if contents == [] then 0
    else
      TextCount(options, contents[..|contents| - 1]) + (if IsText(options, contents[|contents| - 1]) then 1 else 0)
  }

  /** The whole content was delivered. */
  ghost predicate Delivers(record: FileRecord, content: Content) {
    Run(record.trace).Some? && Bytes(Run(record.trace).value) == content
  }

  method StopReason() returns (reason: Option<ScanTermination>)
  {
    reason := *;
  }

  method VisitFile(file: ScannedFile, options: Options, bufferLength: nat, calm: Option<Content>)
    returns (outcome: Result<Inspection, IoError>, record: FileRecord)
    ensures record.file == file && RecordOk(options, record) && record.failed == outcome.Err?
    ensures record.status == if outcome.Ok? then outcome.value.status else None
    ensures outcome.Err? ==> !HasQuit(record)
    ensures outcome.Ok? ==> outcome.value.bytesEmitted == Delivered(record)
    ensures outcome.Ok? ==> outcome.value.visitorQuit == HasQuit(record)
    ensures (outcome.Ok? && outcome.value.status == Some(FileSelected)) <==> EndedSelected(record.trace)
    ensures outcome.Ok? && outcome.value.status.Some? && outcome.value.status.value.FileStopped? ==> !HasQuit(record)
    ensures calm.Some? && CalmContent(file, options, bufferLength, calm.value) ==>
      && outcome.Ok? && !outcome.value.visitorQuit
      && outcome.value.status == Some(if IsText(options, calm.value) then FileSelected else FileBinary)
      && (EndedSelected(record.trace) ==> Delivers(record, calm.value))
  {
    hide Run;
    var visit := new FileVisit(options, file, bufferLength, calm);
    ghost var before;
    outcome, before := visit.Inspect();
    record := FileRecord(file, visit.trace, visit.physical, outcome.Err?, if outcome.Ok? then outcome.value.status else None);
  }
}
