/** `_VaultSecretDocumentStore` on one path: one system call per step, many callers on one directory. */

module DocumentStore {
  import opened Outcomes
  import opened Text
  import opened Documents
  import opened DocumentProofs

  // -------------------------------------------------------------- directory

  /** The names callers use in the directory: the document's, and random staging names. */
  datatype Name = Target | Temp(token: nat)

  type Inode = nat

  /** Hard links are names with the same inode; a file without a name stays readable. */
  datatype Disk = Disk(entries: map<Name, Inode>, files: map<Inode, Bytes>)

  const BLANK: Disk := Disk(map[], map[])

  function Content(disk: Disk, i: Inode): Bytes { if i in disk.files then disk.files[i] else [] }

  function Names(disk: Disk, i: Inode): set<Name> { set n | n in disk.entries && disk.entries[n] == i }

  /** `st_nlink` */
  function HardLinks(disk: Disk, i: Inode): nat { |Names(disk, i)| }

  predicate Named(disk: Disk, n: Name, i: Inode) { n in disk.entries && disk.entries[n] == i }

  // ------------------------------------------------------------------- calls

  /** Decrypting, loading as YAML and normalizing; None when one of them refuses. */
  type Codec = Bytes -> Option<Doc>

  /** What the caller of `ensure_exact` or `ensure` asks for. */
  datatype Request =
    | Exact(document: Doc)
    | Schema(subject: Text, version: int, secretField: Text, secretLength: nat)

  function VersionKey(): Text { S("schema_version") }
  function SubjectKey(): Text { S("subject") }

  predicate Matches(request: Request, d: Doc) {
    match request
    case Exact(document) => DocumentsEqual(d, document)
    case Schema(subject, version, secretField, secretLength) =>
      && d.MapDoc?
      && d.fields.Keys == {VersionKey(), SubjectKey(), secretField}
      && d.fields[VersionKey()] == IntDoc(version)
      && d.fields[SubjectKey()] == StringDoc(subject)
      && d.fields[secretField].StringDoc?
      && |d.fields[secretField].s| == secretLength
      && 13 !in d.fields[secretField].s && 10 !in d.fields[secretField].s
  }

  predicate Accepts(decode: Codec, request: Request, b: Bytes) {
    decode(b).Some? && Matches(request, decode(b).value)
  }

  datatype Stage = Stage(token: nat, inode: Inode)

  /** Why `_read_existing` is called: before anything else, after winning, or after losing the race. */
  datatype Purpose = First | Confirm | Race(attempt: nat)

  datatype ReadStep =
    | StatPath
    | OpenPath(path: Inode)
    | StatFile(path: Inode, file: Inode)
    | Chunks(file: Inode, read: Bytes)
    | StatAgain(file: Inode, read: Bytes)
    | StatPathAgain(file: Inode, read: Bytes, links: nat, size: nat)

  datatype Phase =
    | Reading(purpose: Purpose, step: ReadStep)
    | Open(tries: nat)
    | Identify
    | Write(written: nat)
    | Check
    | Link
    | Unlink
    | Sync
    | Cleanup
    | Done(created: bool, exists_: bool, bytes: Bytes)
    | Failed
    | Abandoned(why: Cause)
    | Crashed(holding: bool)

  /**
   * Why a call that raised did not remove its staging name: the first stat of the new file failed, so that the cleanup
   * skips it; closing the file failed before the cleanup; or the cleanup itself failed.
   */
  datatype Cause = Unidentified | NotClosed | NotRemoved

  /** The call made a staging name and did not remove it. */
  predicate Holding(c: Call) {
    c.stage.Some?
    && match c.phase
       case Identify => true
       case Write(_) => true
       case Check => true
       case Link => true
       case Unlink => true
       case Cleanup => true
       case Abandoned(_) => true
       case Crashed(holding) => holding
       case _ => false
  }

  /** A call: its ciphertext is what encrypting would give, the staged file it made, and `created`. */
  datatype Call = Call(request: Request, limit: nat, checkMode: bool, ciphertext: Option<Bytes>,
                       stage: Option<Stage>, linked: bool, phase: Phase)

  const RACE_RETRIES := 100
  const TEMP_CREATE_RETRIES := 100
  const READ_SIZE := 65536

  function Cipher(c: Call): Bytes { if c.ciphertext.Some? then c.ciphertext.value else [] }

  /** The ciphertext passes the checks made before anything is staged. */
  predicate Prepared(decode: Codec, c: Call) {
    && c.ciphertext.Some?
    && |c.ciphertext.value| <= c.limit
    && (c.request.Exact? ==> Accepts(decode, c.request, c.ciphertext.value))
  }

  // ----------------------------------------------------------------- reading

  /** How `_read_existing` ends. */
  datatype Outcome = Absent | Found(bytes: Bytes) | Transient | Refused

  datatype ReadProgress = Go(step: ReadStep) | Got(outcome: Outcome)

  /** `_validate_file_stat` */
  function Checked(limit: nat, links: nat, size: nat, next: ReadProgress): ReadProgress {
    if links != 1 then Got(Transient)
    else if size > limit then Got(Refused)
    else next
  }

  /** What the system picks: fresh names and numbers, and how much a read or write moves. */
  datatype Pick = Pick(token: nat, inode: Inode, amount: nat)

  function Amount(pick: Pick, most: nat): (n: nat)
    requires 0 < most
    ensures 1 <= n <= most
  {
    if pick.amount < 1 then 1 else if pick.amount > most then most else pick.amount
  }

  function ReadNext(limit: nat, step: ReadStep, disk: Disk, pick: Pick): ReadProgress {
    match step
    case StatPath =>
      if Target !in disk.entries then Got(Absent) else
        var i := disk.entries[Target];
        Checked(limit, HardLinks(disk, i), |Content(disk, i)|, Go(OpenPath(i)))
    case OpenPath(path) =>
      if Target !in disk.entries then Got(Refused) else Go(StatFile(path, disk.entries[Target]))
    case StatFile(path, file) =>
      Checked(limit, HardLinks(disk, file), |Content(disk, file)|,
              if path != file then Got(Refused) else Go(Chunks(file, [])))
    case Chunks(file, read) =>
      if |read| >= |Content(disk, file)| then Go(StatAgain(file, read)) else
        var rest := Content(disk, file)[|read|..];
        var read' := read + rest[..Amount(pick, if |rest| < READ_SIZE then |rest| else READ_SIZE)];
        if |read'| > limit then Got(Refused) else Go(Chunks(file, read'))
    case StatAgain(file, read) =>
      Go(StatPathAgain(file, read, HardLinks(disk, file), |Content(disk, file)|))
    case StatPathAgain(file, read, links, size) =>
      if Target !in disk.entries then Got(Refused) else
        Checked(limit, links, size,
                if file != disk.entries[Target] || size != |read| then Got(Refused) else Got(Found(read)))
  }

  /** The call after `_read_existing` returned or raised. */
  function Resolved(decode: Codec, c: Call, purpose: Purpose, o: Outcome): Call {
    if o.Found? && Accepts(decode, c.request, o.bytes) then
      c.(phase := Done(purpose == Confirm, true, o.bytes))
    else
      match purpose
      case First =>
        if o.Transient? then c.(phase := Reading(Race(0), StatPath))
        else if o.Absent? && c.checkMode then c.(phase := Done(false, false, []))
        else if o.Absent? && Prepared(decode, c) then c.(phase := Open(0))
        else c.(phase := Failed)
      case Confirm => c.(phase := Failed)
      case Race(attempt) =>
        c.(phase := if attempt + 1 < RACE_RETRIES then Reading(Race(attempt + 1), StatPath) else Failed)
  }

  // --------------------------------------------------------------- publishing

  /** The names with the staged one removed, when it still is the staged file. */
  function Removed(disk: Disk, stage: Stage): Disk {
    if Named(disk, Temp(stage.token), stage.inode) then disk.(entries := disk.entries - {Temp(stage.token)}) else disk
  }

  /** One system call of `_exclusive_create` on its staged file. */
  function StageStep(c: Call, stage: Stage, disk: Disk, pick: Pick): (Call, Disk)
    requires c.stage == Some(stage)
  {
    var temp := Temp(stage.token);
    match c.phase
    case Identify => (c.(phase := Write(0)), disk)
    case Write(written) =>
      if written >= |Cipher(c)| then (c.(phase := Check), disk) else
        var n := Amount(pick, |Cipher(c)| - written);
        (c.(phase := Write(written + n)),
         disk.(files := disk.files[stage.inode := Content(disk, stage.inode) + Cipher(c)[written..written + n]]))
    case Check =>
      if |Content(disk, stage.inode)| == |Cipher(c)| && Named(disk, temp, stage.inode)
      then (c.(phase := Link), disk) else (c.(phase := Cleanup), disk)
    case Link =>
      if temp !in disk.entries then (c.(phase := Cleanup), disk)
      else if Target in disk.entries then (c.(phase := Unlink), disk)
      else (c.(phase := Unlink, linked := true), disk.(entries := disk.entries[Target := disk.entries[temp]]))
    case Unlink =>
      if Named(disk, temp, stage.inode) then (c.(phase := Sync), Removed(disk, stage)) else (c.(phase := Cleanup), disk)
    case Sync => (c.(phase := Reading(if c.linked then Confirm else Race(0), StatPath)), disk)
    case Cleanup => (c.(phase := Failed), Removed(disk, stage))
    case _ => (c, disk)
  }

  /** `_open_exclusive_temp`, with O_CREAT and O_EXCL */
  function OpenStep(c: Call, disk: Disk, pick: Pick): (Call, Disk)
    requires c.phase.Open?
  {
    if Temp(pick.token) in disk.entries then
      (c.(phase := if c.phase.tries + 1 < TEMP_CREATE_RETRIES then Open(c.phase.tries + 1) else Failed), disk)
    else if pick.inode in disk.files then (c, disk)
    else
      (c.(stage := Some(Stage(pick.token, pick.inode)), phase := Identify),
       Disk(disk.entries[Temp(pick.token) := pick.inode], disk.files[pick.inode := []]))
  }

  /** One system call of `ensure` or `ensure_exact`. */
  function CallStep(decode: Codec, c: Call, disk: Disk, pick: Pick): (Call, Disk) {
    match c.phase
    case Reading(purpose, step) =>
      (match ReadNext(c.limit, step, disk, pick)
       case Go(next) => c.(phase := Reading(purpose, next))
       case Got(o) => Resolved(decode, c, purpose, o),
       disk)
    case Open(_) => OpenStep(c, disk, pick)
    case _ => if c.stage.Some? then StageStep(c, c.stage.value, disk, pick) else (c, disk)
  }

  /** A system call raised: an error that a reading loop catches, or one that goes to the cleanup. */
  function Faulted(decode: Codec, c: Call, caught: bool): Call {
    match c.phase
    case Reading(purpose, _) => if caught then Resolved(decode, c, purpose, Refused) else c.(phase := Failed)
    case Open(_) => c.(phase := Failed)
    case Write(_) => c.(phase := Cleanup)
    case Check => c.(phase := Cleanup)
    case Link => c.(phase := Cleanup)
    case Unlink => c.(phase := Cleanup)
    case Sync => c.(phase := Failed)
    case _ => c
  }

  /** The staged file is left behind. */
  function LeftBehind(c: Call, why: Cause): Call {
    if (c.phase.Identify? && why.Unidentified?) || (c.phase.Cleanup? && !why.Unidentified?) then c.(phase := Abandoned(why))
    else c
  }

  predicate Ended(c: Call) { c.phase.Done? || c.phase.Failed? || c.phase.Abandoned? || c.phase.Crashed? }

  predicate Fresh(c: Call) { c.phase == Reading(First, StatPath) && c.stage.None? && !c.linked }

  // ------------------------------------------------------------------- runs

  datatype System = System(disk: Disk, calls: map<nat, Call>)

  const EMPTY: System := System(BLANK, map[])

  datatype Event =
    | Start(id: nat, call: Call)
    | Step(id: nat, pick: Pick)
    | Fault(id: nat, caught: bool)
    | Leave(id: nat, why: Cause)
    | Crash(id: nat)

  /** The state after an event; an event that cannot happen changes nothing. */
  function After(decode: Codec, s: System, e: Event): System {
    match e
    case Start(id, call) => if id !in s.calls && Fresh(call) then s.(calls := s.calls[id := call]) else s
    case Step(id, pick) =>
      if id !in s.calls then s else
        var (c, disk) := CallStep(decode, s.calls[id], s.disk, pick);
        System(disk, s.calls[id := c])
    case Fault(id, caught) =>
      if id !in s.calls then s else s.(calls := s.calls[id := Faulted(decode, s.calls[id], caught)])
    case Leave(id, why) => if id !in s.calls then s else s.(calls := s.calls[id := LeftBehind(s.calls[id], why)])
    case Crash(id) =>
      if id !in s.calls || Ended(s.calls[id]) then s else
        s.(calls := s.calls[id := s.calls[id].(phase := Crashed(Holding(s.calls[id])))])
  }

  function Run(decode: Codec, s: System, events: seq<Event>): System
    decreases |events|
  {
    if events == [] then s else
      After(decode, Run(decode, s, events[..|events| - 1]), events[|events| - 1])
  }
}
