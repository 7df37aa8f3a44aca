/** `ensure` and `ensure_exact` as a program: before each system call others run, and the call may raise. */

module DocumentController {
  import opened Outcomes
  import opened Text
  import opened Documents
  import opened DocumentStore
  import opened DocumentStoreRuns
  import opened DocumentStoreTheorems
  import opened DocumentStorePublish

  /** The dictionary that `_result` builds; the digest is that of bytes. */
  datatype Report = Report(created: bool, exists_: bool, bytes: Bytes)

  predicate SameRequest(c: Call, c': Call) {
    c'.request == c.request && c'.limit == c.limit && c'.checkMode == c.checkMode && c'.ciphertext == c.ciphertext
  }

  /** One controller on the shared directory, with where each call is, for the specification. */
  class Controller {
    const decode: Codec
    const id: nat
    var disk: Disk
    var calls: map<nat, Call>
    ghost const start: System
    ghost var trace: seq<Event>

    /** The directory and the calls are what the events so far make of the start. */
    ghost predicate Valid()
      reads this
    {
      Run(decode, start, trace) == System(disk, calls) && id in calls
    }

    constructor (decode: Codec, id: nat, system: System)
      requires id in system.calls
      ensures Valid() && this.decode == decode && this.id == id && start == system && trace == []
      ensures disk == system.disk && calls == system.calls
    {
      this.decode := decode;
      this.id := id;
      disk := system.disk;
      calls := system.calls;
      start := system;
      trace := [];
    }

    /** The directory becomes d, as it does under e. */
    method Happens(e: Event, d: Disk)
      requires Valid() && After(decode, System(disk, calls), e).disk == d
      modifies this
      ensures Valid() && disk == d && calls == After(decode, System(old(disk), old(calls)), e).calls
    {
      RunMore(decode, start, trace, e);
      KeepsCalls(decode, System(disk, calls), e, id);
      var s := After(decode, System(disk, calls), e);
      assert s == System(d, s.calls);
      calls := s.calls;
      disk := d;
      trace := trace + [e];
    }

    /** Any events of other calls. */
    method Others()
      requires Valid()
      modifies this
      ensures Valid() && calls[id] == old(calls[id])
    {
      var n: nat :| 0 <= n;
      for i := 0 to n
        invariant Valid() && calls[id] == old(calls[id])
      {
        var e: Event := *;
        if e.id != id { Happens(e, After(decode, System(disk, calls), e).disk); }
      }
    }

    /** A system call that leaves the directory alone. */
    method Step(pick: Pick)
      requires Valid() && CallStep(decode, calls[id], disk, pick).1 == disk
      modifies this
      ensures Valid() && disk == old(disk) && calls[id] == CallStep(decode, old(calls[id]), disk, pick).0
    {
      Happens(Event.Step(id, pick), disk);
    }

    /** Others run; then the next system call may raise. */
    method MayRaise() returns (raised: bool, caught: bool)
      requires Valid()
      modifies this
      ensures Valid()
      ensures calls[id] == if raised then Faulted(decode, old(calls[id]), caught) else old(calls[id])
    {
      Others();
      raised, caught := *, *;
      if raised { Happens(Fault(id, caught), disk); }
    }

    /** The same outside a read, where no error is caught. */
    method Interrupted() returns (raised: bool)
      requires Valid() && !calls[id].phase.Reading?
      modifies this
      ensures Valid() && calls[id] == if raised then Faulted(decode, old(calls[id]), false) else old(calls[id])
    {
      var caught;
      raised, caught := MayRaise();
    }

    // --------------------------------------------------------------- reading

    /** The call where a read that came to this left it. */
    ghost function Read(c: Call, purpose: Purpose, progress: ReadProgress): Call
    {
      match progress
      case Go(step) => c.(phase := Reading(purpose, step))
      case Got(o) => Resolved(decode, c, purpose, o)
    }

    /** A system call of a read found what it did. */
    method Saw(purpose: Purpose, ghost step: ReadStep, ghost progress: ReadProgress, pick: Pick)
      requires Valid() && calls[id].phase == Reading(purpose, step)
      requires ReadNext(calls[id].limit, step, disk, pick) == progress
      modifies this
      ensures Valid() && disk == old(disk) && calls[id] == Read(old(calls[id]), purpose, progress)
    {
      Step(pick);
    }

    /** Others run; then the next system call of a read may raise. */
    method ReadRaises(purpose: Purpose) returns (raised: bool, escaped: bool)
      requires Valid() && calls[id].phase.Reading? && calls[id].phase.purpose == purpose
      modifies this
      ensures Valid() && (escaped ==> raised)
      ensures calls[id] ==
              if escaped then old(calls[id]).(phase := Failed)
              else if raised then Read(old(calls[id]), purpose, Got(Refused))
              else old(calls[id])
    {
      var caught;
      raised, caught := MayRaise();
      escaped := raised && !caught;
    }

    /** `_validate_file_stat`: how the read ends, if it does. */
    static function Unsafe(limit: nat, links: nat, size: nat): (o: Option<Outcome>)
      ensures forall next :: Checked(limit, links, size, next) == if o.Some? then Got(o.value) else next
    {
      if links != 1 then Some(Transient) else if size > limit then Some(Refused) else None
    }

    /** `_read_existing`; an error that no caller catches escapes. */
    method ReadExisting(purpose: Purpose, limit: nat) returns (o: Outcome, escaped: bool)
      requires Valid() && calls[id].phase == Reading(purpose, StatPath) && calls[id].limit == limit
      modifies this
      ensures Valid()
      ensures calls[id] == if escaped then old(calls[id]).(phase := Failed) else Resolved(decode, old(calls[id]), purpose, o)
    {
      var file: Option<Inode>, raised, bytes;
      o, file, escaped := OpenExisting(purpose, limit);
      if file.Some? {
        bytes, raised, escaped := ReadChunks(purpose, limit, file.value);
        if raised { return Refused, escaped; }
        o, escaped := StatRead(purpose, limit, file.value, bytes);
      }
    }

    /** The file behind the name, after both stat calls found it safe; otherwise how the read ends. */
    method OpenExisting(purpose: Purpose, limit: nat) returns (o: Outcome, file: Option<Inode>, escaped: bool)
      requires Valid() && calls[id].phase == Reading(purpose, StatPath) && calls[id].limit == limit
      modifies this
      ensures Valid() && (file.Some? ==> !escaped)
      ensures calls[id] ==
              if escaped then old(calls[id]).(phase := Failed)
              else Read(old(calls[id]), purpose, if file.Some? then Go(Chunks(file.value, [])) else Got(o))
    {
      var pick, raised := Pick(0, 0, 0), false;
      raised, escaped := ReadRaises(purpose);
      if raised { return Refused, None, escaped; }
      if Target !in disk.entries { Saw(purpose, StatPath, Got(Absent), pick); return Absent, None, false; }
      var path := disk.entries[Target];
      var unsafe := Unsafe(limit, HardLinks(disk, path), |Content(disk, path)|);
      Saw(purpose, StatPath, if unsafe.Some? then Got(unsafe.value) else Go(OpenPath(path)), pick);
      if unsafe.Some? { return unsafe.value, None, false; }
      o, file, escaped := OpenSeen(purpose, limit, path);
    }

    /** The open call and the stat of what it opened, which must be what was seen. */
    method OpenSeen(purpose: Purpose, limit: nat, path: Inode) returns (o: Outcome, file: Option<Inode>, escaped: bool)
      requires Valid() && calls[id].phase == Reading(purpose, OpenPath(path)) && calls[id].limit == limit
      modifies this
      ensures Valid() && (file.Some? ==> !escaped)
      ensures calls[id] ==
              if escaped then old(calls[id]).(phase := Failed)
              else Read(old(calls[id]), purpose, if file.Some? then Go(Chunks(file.value, [])) else Got(o))
    {
      var pick, raised := Pick(0, 0, 0), false;
      raised, escaped := ReadRaises(purpose);
      if raised { return Refused, None, escaped; }
      if Target !in disk.entries { Saw(purpose, OpenPath(path), Got(Refused), pick); return Refused, None, false; }
      var i := disk.entries[Target];
      Saw(purpose, OpenPath(path), Go(StatFile(path, i)), pick);

      raised, escaped := ReadRaises(purpose);
      if raised { return Refused, None, escaped; }
      var unsafe := Unsafe(limit, HardLinks(disk, i), |Content(disk, i)|);
      if unsafe.None? && path != i { unsafe := Some(Refused); }
      Saw(purpose, StatFile(path, i), if unsafe.Some? then Got(unsafe.value) else Go(Chunks(i, [])), pick);
      if unsafe.Some? { return unsafe.value, None, false; }
      return Refused, Some(i), false;
    }

    /** The read loop: chunks until an empty one, never keeping more than the limit. */
    method ReadChunks(purpose: Purpose, limit: nat, file: Inode) returns (bytes: Bytes, raised: bool, escaped: bool)
      requires Valid() && calls[id].phase == Reading(purpose, Chunks(file, [])) && calls[id].limit == limit
      modifies this
      ensures Valid() && (escaped ==> raised) && |bytes| <= limit
      ensures calls[id] ==
              if escaped then old(calls[id]).(phase := Failed)
              else Read(old(calls[id]), purpose, if raised then Got(Refused) else Go(StatAgain(file, bytes)))
      ensures !raised && Invariant(decode, start) ==> TargetIs(disk, file) && bytes == Content(disk, file)
    {
      bytes := [];
      var more := true;
      while more
        invariant Valid() && |bytes| <= limit
        invariant calls[id] == old(calls[id]).(phase := Reading(purpose, if more then Chunks(file, bytes) else StatAgain(file, bytes)))
        decreases more, limit - |bytes|
      {
        bytes, more, raised, escaped := ReadChunk(purpose, limit, file, bytes);
        if raised { return; }
      }
      raised, escaped := false, false;
      Follows(decode, start, trace, id);
    }

    /** One read call: a further chunk, which must stay within the limit, or the end. */
    method ReadChunk(purpose: Purpose, limit: nat, file: Inode, before: Bytes)
      returns (bytes: Bytes, more: bool, raised: bool, escaped: bool)
      requires Valid() && calls[id].phase == Reading(purpose, Chunks(file, before))
      requires calls[id].limit == limit && |before| <= limit
      modifies this
      ensures Valid() && (escaped ==> raised) && |bytes| <= limit
      ensures !raised ==> if more then |bytes| > |before| else bytes == before
      ensures calls[id] ==
              if escaped then old(calls[id]).(phase := Failed)
              else Read(old(calls[id]), purpose,
                        if raised then Got(Refused) else if more then Go(Chunks(file, bytes)) else Go(StatAgain(file, bytes)))
    {
      bytes, more := before, false;
      raised, escaped := ReadRaises(purpose);
      if raised { return; }
      var pick: Pick := *;
      if |before| >= |Content(disk, file)| {
        Saw(purpose, Chunks(file, before), Go(StatAgain(file, before)), pick);
        return;
      }
      var rest := Content(disk, file)[|before|..];
      var chunk := rest[..Amount(pick, if |rest| < READ_SIZE then |rest| else READ_SIZE)];
      raised := |before| + |chunk| > limit;
      Saw(purpose, Chunks(file, before), if raised then Got(Refused) else Go(Chunks(file, before + chunk)), pick);
      if !raised { bytes, more := before + chunk, true; }
    }

    /** The stat calls after the last chunk: the same file, of the size that was read. */
    method StatRead(purpose: Purpose, limit: nat, file: Inode, bytes: Bytes) returns (o: Outcome, escaped: bool)
      requires Valid() && calls[id].phase == Reading(purpose, StatAgain(file, bytes)) && calls[id].limit == limit
      modifies this
      ensures Valid()
      ensures calls[id] == if escaped then old(calls[id]).(phase := Failed) else Read(old(calls[id]), purpose, Got(o))
    {
      var raised;
      raised, escaped := ReadRaises(purpose);
      if raised { return Refused, escaped; }
      var links, size := HardLinks(disk, file), |Content(disk, file)|;
      Saw(purpose, StatAgain(file, bytes), Go(StatPathAgain(file, bytes, links, size)), Pick(0, 0, 0));
      o, escaped := StatReadPath(purpose, limit, file, bytes, links, size);
    }

    /** The name still is that of the file that was read, whose last stat gave these links and this size. */
    method StatReadPath(purpose: Purpose, limit: nat, file: Inode, bytes: Bytes, links: nat, size: nat)
      returns (o: Outcome, escaped: bool)
      requires Valid() && calls[id].limit == limit
      requires calls[id].phase == Reading(purpose, StatPathAgain(file, bytes, links, size))
      modifies this
      ensures Valid()
      ensures calls[id] == if escaped then old(calls[id]).(phase := Failed) else Read(old(calls[id]), purpose, Got(o))
    {
      var raised;
      raised, escaped := ReadRaises(purpose);
      if raised { return Refused, escaped; }
      o := Refused;
      if Target in disk.entries {
        var unsafe := Unsafe(limit, links, size);
        if unsafe.Some? { o := unsafe.value; }
        else if file == disk.entries[Target] && size == |bytes| { o := Found(bytes); }
      }
      Saw(purpose, StatPathAgain(file, bytes, links, size), Got(o), Pick(0, 0, 0));
    }

    /** `_load_race_winner` and `_load_exact_race_winner` */
    method LoadRaceWinner(request: Request, limit: nat) returns (r: Result<Report>)
      requires Valid() && calls[id].phase == Reading(Race(0), StatPath)
      requires calls[id].limit == limit && calls[id].request == request
      modifies this
      ensures Valid() && Reports(r) && SameRequest(old(calls[id]), calls[id])
      ensures r.Ok? ==> r.value.exists_ && !r.value.created
    {
      var attempt := 0;
      while attempt < RACE_RETRIES
        invariant Valid() && attempt <= RACE_RETRIES && SameRequest(old(calls[id]), calls[id])
        invariant calls[id].phase == if attempt < RACE_RETRIES then Reading(Race(attempt), StatPath) else Failed
      {
        var o, escaped := ReadExisting(Race(attempt), limit);
        if escaped { return Raised; }
        if o.Found? && Accepts(decode, request, o.bytes) { return Ok(Report(false, true, o.bytes)); }
        attempt := attempt + 1;
      }
      r := Raised;
    }

    /** The call has ended, with the result r. */
    predicate Reports(r: Result<Report>)
      requires id in calls
      reads this
    {
      match r
      case Ok(report) => calls[id].phase == Done(report.created, report.exists_, report.bytes)
      case Raised => calls[id].phase.Failed? || calls[id].phase.Abandoned?
    }

    // ------------------------------------------------------------ publishing

    /** The shared part of the contracts below: only the staged file and the phase of the call change. */
    predicate Publishing(cipher: Bytes, phase: Phase)
      requires id in calls
      reads this
    {
      calls[id].ciphertext == Some(cipher) && calls[id].stage.Some? && calls[id].phase == phase
    }

    /** `_open_exclusive_temp` */
    method OpenExclusiveTemp(cipher: Bytes) returns (stage: Result<Stage>)
      requires Valid() && calls[id].phase == Open(0) && calls[id].ciphertext == Some(cipher) && !calls[id].linked
      modifies this
      ensures Valid() && SameRequest(old(calls[id]), calls[id]) && !calls[id].linked
      ensures if stage.Ok? then Publishing(cipher, Identify) && calls[id].stage == Some(stage.value)
              else calls[id].phase.Failed?
    {
      var tries := 0;
      while tries < TEMP_CREATE_RETRIES
        invariant Valid() && SameRequest(old(calls[id]), calls[id]) && !calls[id].linked && tries <= TEMP_CREATE_RETRIES
        invariant calls[id].phase == if tries < TEMP_CREATE_RETRIES then Open(tries) else Failed
      {
        var raised := Interrupted();
        if raised { return Raised; }
        var pick: Pick := *;
        if Temp(pick.token) in disk.entries {
          Step(pick);
          tries := tries + 1;
        } else if pick.inode in disk.files {
          Happens(Fault(id, false), disk);
          return Raised;
        } else {
          Happens(Event.Step(id, pick),
                  Disk(disk.entries[Temp(pick.token) := pick.inode], disk.files[pick.inode := []]));
          return Ok(Stage(pick.token, pick.inode));
        }
      }
      stage := Raised;
    }

    /** `_write_ciphertext`, which continues after every short write */
    method WriteCiphertext(cipher: Bytes, stage: Stage) returns (raised: bool)
      requires Valid() && Publishing(cipher, Write(0)) && calls[id].stage == Some(stage)
      modifies this
      ensures Valid() && calls[id] == old(calls[id]).(phase := if raised then Cleanup else Write(|cipher|))
    {
      var written := 0;
      raised := false;
      while written < |cipher|
        invariant Valid() && written <= |cipher| && calls[id] == old(calls[id]).(phase := Write(written))
      {
        raised := Interrupted();
        if raised { return; }
        var pick: Pick := *;
        WriteSome(cipher, stage, written, pick);
        written := written + Amount(pick, |cipher| - written);
      }
    }

    /** One write, of as many bytes as the system takes. */
    method WriteSome(cipher: Bytes, stage: Stage, written: nat, pick: Pick)
      requires Valid() && Publishing(cipher, Write(written)) && calls[id].stage == Some(stage) && written < |cipher|
      modifies this
      ensures Valid()
      ensures calls[id] == old(calls[id]).(phase := Write(written + Amount(pick, |cipher| - written)))
    {
      var n := Amount(pick, |cipher| - written);
      var content := Content(disk, stage.inode) + cipher[written..written + n];
      Happens(Event.Step(id, pick), disk.(files := disk.files[stage.inode := content]));
    }

    /** Write, synchronize, and check the size and identity of the staged file. */
    method WriteStaged(cipher: Bytes, stage: Stage) returns (raised: bool)
      requires Valid() && Publishing(cipher, Write(0)) && calls[id].stage == Some(stage)
      modifies this
      ensures Valid() && calls[id] == old(calls[id]).(phase := if raised then Cleanup else Link)
      ensures !raised && Invariant(decode, start) ==>
                Content(disk, stage.inode) == cipher && Named(disk, Temp(stage.token), stage.inode)
    {
      var pick := Pick(0, 0, 0);
      raised := WriteCiphertext(cipher, stage);
      if raised { return; }
      raised := Interrupted();
      if raised { return; }
      Step(pick);
      raised := Interrupted();
      if raised { return; }
      raised := !(|Content(disk, stage.inode)| == |cipher| && Named(disk, Temp(stage.token), stage.inode));
      Step(pick);
      Follows(decode, start, trace, id);
    }

    /** `_link_no_replace`: whether the name was free, and is ours now. */
    method LinkStaged(cipher: Bytes, stage: Stage) returns (created: bool, raised: bool)
      requires Valid() && Publishing(cipher, Link) && calls[id].stage == Some(stage) && !calls[id].linked
      modifies this
      ensures Valid() && SameRequest(old(calls[id]), calls[id]) && calls[id].stage == Some(stage)
      ensures Publishing(cipher, if raised then Cleanup else Unlink) && calls[id].linked == created
    {
      created := false;
      raised := Interrupted();
      if raised { return; }
      var pick, temp := Pick(0, 0, 0), Temp(stage.token);
      if temp !in disk.entries {
        Step(pick);
        raised := true;
      } else if Target in disk.entries {
        Step(pick);
      } else {
        Happens(Event.Step(id, pick), disk.(entries := disk.entries[Target := disk.entries[temp]]));
        created := true;
      }
    }

    /** `_unlink_owned_temp`, then the directory is synchronized; held says that the name is still ours to remove. */
    method UnlinkStaged(cipher: Bytes, stage: Stage) returns (raised: bool, held: bool)
      requires Valid() && Publishing(cipher, Unlink) && calls[id].stage == Some(stage)
      modifies this
      ensures Valid() && SameRequest(old(calls[id]), calls[id])
      ensures if raised && held then Publishing(cipher, Cleanup) && calls[id].stage == Some(stage)
              else if raised then calls[id].phase.Failed?
              else calls[id].phase == Reading(if old(calls[id]).linked then Confirm else Race(0), StatPath)
    {
      held := true;
      raised := Interrupted();
      if raised { return; }
      var pick, temp := Pick(0, 0, 0), Temp(stage.token);
      if !Named(disk, temp, stage.inode) {
        Step(pick);
        return true, true;
      }
      Happens(Event.Step(id, pick), disk.(entries := disk.entries - {temp}));
      held := false;
      raised := Interrupted();
      if !raised { Step(pick); }
    }

    /** The descriptor is closed before the cleanup, which a failed close skips. */
    method CloseStaged(stage: Stage) returns (closed: bool)
      requires Valid() && calls[id].phase == Cleanup && calls[id].stage == Some(stage)
      modifies this
      ensures Valid() && calls[id] == old(calls[id]).(phase := if closed then Cleanup else Abandoned(NotClosed))
    {
      Others();
      closed := *;
      if !closed { Happens(Leave(id, NotClosed), disk); }
    }

    /** `_remove_owned_temp`: the name goes unless it cannot be removed, or is no longer ours. */
    method RemoveOwnedTemp(stage: Stage)
      requires Valid() && calls[id].phase == Cleanup && calls[id].stage == Some(stage)
      modifies this
      ensures Valid()
      ensures calls[id] == old(calls[id]).(phase := if calls[id].phase.Failed? then Failed else Abandoned(NotRemoved))
      ensures calls[id].phase.Failed? ==> !Named(disk, Temp(stage.token), stage.inode)
    {
      Others();
      if * {
        Happens(Leave(id, NotRemoved), disk);
      } else if Named(disk, Temp(stage.token), stage.inode) {
        Happens(Event.Step(id, Pick(0, 0, 0)), disk.(entries := disk.entries - {Temp(stage.token)}));
      } else {
        Step(Pick(0, 0, 0));
      }
    }

    /** What the clean-up does after an error: close, then remove. */
    method CleanUp(stage: Stage)
      requires Valid() && calls[id].phase == Cleanup && calls[id].stage == Some(stage)
      modifies this
      ensures Valid() && calls[id] == old(calls[id]).(phase := calls[id].phase)
      ensures calls[id].phase.Failed? || calls[id].phase == Abandoned(NotClosed) || calls[id].phase == Abandoned(NotRemoved)
      ensures calls[id].phase.Failed? ==> !Named(disk, Temp(stage.token), stage.inode)
    {
      var closed := CloseStaged(stage);
      if closed { RemoveOwnedTemp(stage); }
    }

    /** `_exclusive_create` */
    method ExclusiveCreate(cipher: Bytes) returns (created: Result<bool>)
      requires Valid() && calls[id].phase == Open(0) && calls[id].ciphertext == Some(cipher) && !calls[id].linked
      modifies this
      ensures Valid() && SameRequest(old(calls[id]), calls[id])
      ensures if created.Ok? then calls[id].phase == Reading(if created.value then Confirm else Race(0), StatPath)
              else calls[id].phase.Failed? || calls[id].phase.Abandoned?
    {
      var staged := OpenExclusiveTemp(cipher);
      if staged.Raised? { return Raised; }
      var stage := staged.value;
      Others();
      if * { Happens(Leave(id, Unidentified), disk); return Raised; }
      Step(Pick(0, 0, 0));
      var raised := WriteStaged(cipher, stage);
      var linked, held := false, true;
      if !raised { linked, raised := LinkStaged(cipher, stage); }
      if !raised { raised, held := UnlinkStaged(cipher, stage); }
      if raised && held { CleanUp(stage); }
      if raised { return Raised; }
      created := Ok(linked);
    }

    /** `ensure` and `ensure_exact`, for what encrypting the request gives, if it gives anything. */
    method Ensure(c: Call) returns (r: Result<Report>)
      requires Valid() && calls[id] == c && Fresh(c)
      modifies this
      ensures Valid() && Reports(r) && SameRequest(c, calls[id])
      ensures r.Ok? && !r.value.exists_ ==> c.checkMode && !r.value.created
      ensures start == EMPTY && Smooth(decode, trace, id) && Publishable(decode, c) ==>
                && r == Ok(Report(true, true, Cipher(c)))
                && Target in disk.entries && Content(disk, disk.entries[Target]) == Cipher(c)
    {
      r := Follow(c);
      if start == EMPTY && Smooth(decode, trace, id) && Publishable(decode, c) { SmoothCallCreates(decode, trace, id); }
    }

    /** The call without its meaning: it follows the process. */
    method Follow(c: Call) returns (r: Result<Report>)
      requires Valid() && calls[id] == c && Fresh(c)
      modifies this
      ensures Valid() && Reports(r) && SameRequest(c, calls[id])
      ensures r.Ok? && !r.value.exists_ ==> c.checkMode && !r.value.created
    {
      var o, escaped := ReadExisting(First, c.limit);
      if escaped || o.Refused? { return Raised; }
      if o.Transient? {
        r := LoadRaceWinner(c.request, c.limit);
        return;
      }
      if o.Found? {
        return if Accepts(decode, c.request, o.bytes) then Ok(Report(false, true, o.bytes)) else Raised;
      }
      if c.checkMode { return Ok(Report(false, false, [])); }
      if c.ciphertext.None? || |c.ciphertext.value| > c.limit { return Raised; }
      var cipher := c.ciphertext.value;
      if c.request.Exact? && !Accepts(decode, c.request, cipher) { return Raised; }
      var created := ExclusiveCreate(cipher);
      if created.Raised? { return Raised; }
      if !created.value {
        r := LoadRaceWinner(c.request, c.limit);
        return;
      }
      o, escaped := ReadExisting(Confirm, c.limit);
      if escaped || !o.Found? || !Accepts(decode, c.request, o.bytes) { return Raised; }
      r := Ok(Report(true, true, o.bytes));
    }

    /** `ensure_exact` from any reachable state: what it reports to exist decodes to the document it was given. */
    method EnsureExact(c: Call, document: Doc) returns (r: Result<Report>)
      requires Valid() && start == EMPTY && calls[id] == c && Fresh(c) && c.request == Exact(document)
      modifies this
      ensures Valid() && Reports(r)
      ensures r.Ok? && r.value.exists_ ==>
                && Target in disk.entries
                && r.value.bytes == Content(disk, disk.entries[Target])
                && decode(r.value.bytes) == Some(document)
      ensures r.Ok? && !r.value.exists_ ==> c.checkMode && !r.value.created
      ensures Smooth(decode, trace, id) && !c.checkMode && Prepared(decode, c) ==>
                && r == Ok(Report(true, true, Cipher(c)))
                && Target in disk.entries && Content(disk, disk.entries[Target]) == Cipher(c)
    {
      r := Ensure(c);
      if r.Ok? && r.value.exists_ { ResultsReadBack(decode, trace, id); }
    }
  }

  /** What every run keeps of a call, when the start does. */
  lemma Follows(decode: Codec, s: System, trace: seq<Event>, id: nat)
    ensures Invariant(decode, s) && id in Run(decode, s, trace).calls ==>
              CallInvariant(decode, Run(decode, s, trace).disk, Run(decode, s, trace).calls[id])
  {
    if Invariant(decode, s) { RunKeepsInvariant(decode, s, trace); }
  }

  lemma KeepsCalls(decode: Codec, s: System, e: Event, id: nat)
    requires id in s.calls
    ensures id in After(decode, s, e).calls
  {
  }
}
