/** Protected files are read and replaced through an anchored parent, whatever system call fails. */

module AtomicReplace {
  import opened Outcomes
  import opened Text
  import opened Kernel

  const MAX_ASSET := 1_000_000

  /** A starting directory, the components of the parent, and the last name. */
  datatype Path = Path(start: nat, components: seq<Text>, name: Text)

  const DOT: Text := S(".")
  const DOTS: Text := S("..")

  /** The directory that the first n components lead to; a parent component is refused. */
  function Walked(directories: map<Place, nat>, path: Path, n: nat): Option<nat>
    requires n <= |path.components|
  {
    if n == 0 then Some(path.start) else
      match Walked(directories, path, n - 1)
      case None => None
      case Some(dir) =>
        var component := path.components[n - 1];
        if component == [] || component == DOT then Some(dir)
        else if component == DOTS || (dir, component) !in directories then None
        else Some(directories[(dir, component)])
  }

  function Parent(directories: map<Place, nat>, path: Path): Option<nat> { Walked(directories, path, |path.components|) }

  predicate ProperName(name: Text) { name != [] && name != DOT && name != DOTS }

  /** The trace went on from an earlier one, and the files stayed as they are. */
  predicate Unmoved(earlier: seq<Files>, trace: seq<Files>, files: Files) {
    earlier <= trace && forall i :: |earlier| <= i < |trace| ==> trace[i] == files
  }

  /** The trace went on from an earlier one, and all its states have these files but for one place. */
  predicate OnlyAt(earlier: seq<Files>, trace: seq<Files>, place: Place, files: Files) {
    earlier <= trace && forall i :: |earlier| <= i < |trace| ==> trace[i] - {place} == files - {place}
  }

  lemma Elsewhere(a: Files, b: Files, place: Place, other: Place)
    requires a - {place} == b - {place} && other != place
    ensures Lookup(a, other) == Lookup(b, other)
  {
    assert other in a <==> other in a - {place};
    assert other in b <==> other in b - {place};
  }

  lemma SmallerMaps(a: Files, b: Files, place: Place, other: Place)
    requires a - {place} == b - {place}
    ensures a - {place, other} == b - {place, other}
  {
    assert a - {place, other} == (a - {place}) - {other};
    assert b - {place, other} == (b - {place}) - {other};
  }

  lemma SameFiles(a: Files, b: Files, place: Place, other: Place)
    requires a - {place, other} == b - {place, other}
    requires Lookup(a, place) == Lookup(b, place) && Lookup(a, other) == Lookup(b, other)
    ensures a == b
  {
    forall p | p != place && p != other ensures Lookup(a, p) == Lookup(b, p) {
      assert p in a <==> p in a - {place, other};
      assert p in b <==> p in b - {place, other};
    }
    assert forall p :: p in a <==> Lookup(a, p).Some?;
    assert forall p :: p in b <==> Lookup(b, p).Some?;
    assert a.Keys == b.Keys;
    forall p | p in a ensures a[p] == b[p] { assert Lookup(a, p) == Lookup(b, p); }
  }

  lemma OnlyAtLeavesOthers(earlier: seq<Files>, trace: seq<Files>, place: Place, files: Files, other: Place)
    requires OnlyAt(earlier, trace, place, files) && other != place
    ensures Steady(trace, |earlier|, other, Lookup(files, other))
  {
    forall i | |earlier| <= i < |trace| ensures Lookup(trace[i], other) == Lookup(files, other) {
      Elsewhere(trace[i], files, place, other);
    }
  }

  /** One component of the walk: the child is open instead of its parent, or neither is. */
  method Enter(k: Process, directory: nat, component: Text) returns (r: Option<nat>)
    requires k.Valid() && k.IsDirectory(directory)
    modifies k`open, k`next, k`trace, k`faults
    ensures k.Valid() && Unmoved(old(k.trace), k.trace, k.files) && k.faults >= old(k.faults)
    ensures k.faults == old(k.faults) ==>
              (r.Some? <==> component != DOTS && (old(k.open[directory].dir), component) in k.directories)
    ensures match r
            case None => k.open == old(k.open) - {directory}
            case Some(fd) =>
              && fd !in old(k.open) && component != DOTS
              && (old(k.open[directory].dir), component) in k.directories
              && k.open == (old(k.open) - {directory})[fd := Directory(k.directories[(old(k.open[directory].dir), component)])]
  {
    if component == DOTS {
      var _ := k.Close(directory);
      return None;
    }
    var child := k.OpenDirectory(directory, component);
    var closed := k.Close(directory);
    if !child.Descriptor? { return None; }
    if !closed {
      var _ := k.Close(child.fd);
      return None;
    }
    r := Some(child.fd);
  }

  /** The parent can be walked to, and is safe. */
  predicate HasSafeParent(directories: map<Place, nat>, safe: set<nat>, path: Path) {
    ProperName(path.name) && Parent(directories, path).Some? && Parent(directories, path).value in safe
  }

  lemma {:induction false} WalkStops(directories: map<Place, nat>, path: Path, m: nat, n: nat)
    requires m <= n <= |path.components| && Walked(directories, path, m).None?
    ensures Walked(directories, path, n).None?
  {
    if m < n { WalkStops(directories, path, m, n - 1); }
  }

  /** `open_owned_parent_directory`: the one descriptor left open is that of the safe parent. */
  method OpenOwnedParent(k: Process, path: Path) returns (r: Result<nat>)
    requires k.Valid()
    modifies k`open, k`next, k`trace, k`faults
    ensures k.Valid() && Unmoved(old(k.trace), k.trace, k.files) && k.faults >= old(k.faults)
    ensures k.faults == old(k.faults) ==> (r.Ok? <==> HasSafeParent(k.directories, k.safe, path))
    ensures match r
            case Ok(fd) =>
              && ProperName(path.name) && Parent(k.directories, path).Some? && Parent(k.directories, path).value in k.safe
              && fd !in old(k.open) && k.open == old(k.open)[fd := Directory(Parent(k.directories, path).value)]
            case Raised => k.open == old(k.open)
  {
    if !ProperName(path.name) { return Raised; }
    var started := k.OpenStart(path.start);
    if !started.Descriptor? { return Raised; }
    var directory := started.fd;
    for i := 0 to |path.components|
      invariant k.Valid() && Unmoved(old(k.trace), k.trace, k.files) && k.faults >= old(k.faults)
      invariant Walked(k.directories, path, i).Some? && directory !in old(k.open)
      invariant k.open == old(k.open)[directory := Directory(Walked(k.directories, path, i).value)]
    {
      var component := path.components[i];
      if component != [] && component != DOT {
        ghost var faults := k.faults;
        var child := Enter(k, directory, component);
        if child.None? {
          if k.faults == faults { WalkStops(k.directories, path, i + 1, |path.components|); }
          return Raised;
        }
        directory := child.value;
      }
    }
    var inspected, isSafe := k.StatDirectory(directory);
    if !inspected || !isSafe {
      var _ := k.Close(directory);
      return Raised;
    }
    r := Ok(directory);
  }

  /** What a protected file must look like. */
  predicate Acceptable(file: File) { file.regular && file.links == 1 && file.owned && !file.shared }

  /** `protected_asset_bytes`: the whole file, and no descriptor left open on any path. */
  method ProtectedAssetBytes(k: Process, path: Path) returns (r: Result<Bytes>)
    requires k.Valid()
    modifies k`open, k`next, k`trace, k`faults
    ensures k.Valid() && k.open == old(k.open) && k.faults >= old(k.faults)
    ensures k.faults == old(k.faults) ==>
              (r.Ok? <==>
                 && HasSafeParent(k.directories, k.safe, path)
                 && match Lookup(k.files, (Parent(k.directories, path).value, path.name))
                    case Some(file) => Acceptable(file) && 1 <= |file.bytes| <= MAX_ASSET
                    case None => false)
    ensures r.Ok? ==>
              && Parent(k.directories, path).Some? && Parent(k.directories, path).value in k.safe
              && var place := (Parent(k.directories, path).value, path.name);
                 && place in k.files && Acceptable(k.files[place]) && r.value == k.files[place].bytes
                 && 1 <= |r.value| <= MAX_ASSET
  {
    var parent := OpenOwnedParent(k, path);
    if parent.Raised? { return Raised; }
    var directory := parent.value;
    var opened_ := k.OpenFile(directory, path.name);
    r := Raised;
    var cleaned := true;
    if opened_.Descriptor? {
      var inspected, file := k.StatFile(opened_.fd);
      if inspected && Acceptable(file) && 1 <= |file.bytes| <= MAX_ASSET {
        var read, payload := k.ReadBack(opened_.fd, MAX_ASSET + 1);
        if read && |payload| == |file.bytes| { r := Ok(payload); }
      }
      cleaned := k.Close(opened_.fd);
    }
    var closed := k.Close(directory);
    if !closed || !cleaned { r := Raised; }
  }

  // ------------------------------------------------------------ replacing a file

  /** An existing target must be acceptable; its descriptor is closed again. */
  method CheckExisting(k: Process, directory: nat, name: Text) returns (raised: bool)
    requires k.Valid() && k.IsDirectory(directory)
    modifies k`open, k`next, k`trace, k`faults
    ensures k.Valid() && k.open == old(k.open)
    ensures Unmoved(old(k.trace), k.trace, k.files) && k.faults >= old(k.faults)
    ensures var place := (old(k.open[directory].dir), name);
            !raised && place in k.files ==> Acceptable(k.files[place])
    ensures var place := (old(k.open[directory].dir), name);
            k.faults == old(k.faults) ==> raised == (place in k.files && !Acceptable(k.files[place]))
  {
    var existing := k.OpenFile(directory, name);
    if existing.NotFound? { return false; }
    if existing.Error? { return true; }
    var inspected, file := k.StatFile(existing.fd);
    raised := !inspected || !Acceptable(file);
    var closed := k.Close(existing.fd);
    if !closed { raised := true; }
  }

  /** The write loop: every byte of the payload, in order, however short the writes are. */
  method WriteAll(k: Process, fd: nat, payload: Bytes) returns (raised: bool)
    requires k.Valid() && k.IsFile(fd) && k.files[k.open[fd].place].bytes == []
    modifies k`files, k`trace, k`faults
    ensures k.Valid() && OnlyAt(old(k.trace), k.trace, k.open[fd].place, old(k.files))
    ensures exists bytes :: k.files == old(k.files)[k.open[fd].place := old(k.files)[k.open[fd].place].(bytes := bytes)]
    ensures !raised ==> k.files[k.open[fd].place].bytes == payload
    ensures k.faults >= old(k.faults) && (k.faults == old(k.faults) ==> !raised)
  {
    var written := 0;
    ghost var place := k.open[fd].place;
    assert old(k.files) == old(k.files)[place := old(k.files)[place].(bytes := [])];
    while written < |payload|
      invariant k.Valid() && k.IsFile(fd) && written <= |payload| && k.faults >= old(k.faults)
      invariant OnlyAt(old(k.trace), k.trace, place, old(k.files))
      invariant k.files == old(k.files)[place := old(k.files)[place].(bytes := payload[..written])]
    {
      var ok, n := k.Write(fd, payload[written..]);
      assert payload[..written] + payload[written..][..n] == payload[..written + n];
      written := written + n;
      if !ok || n == 0 { return true; }
    }
    assert payload[..written] == payload;
    raised := false;
  }

  const STAGED := File([], true, 1, true, false)

  /** The new file is inspected, written, synchronized, inspected again and read back. */
  method Fill(k: Process, fd: nat, payload: Bytes) returns (raised: bool)
    requires k.Valid() && k.IsFile(fd) && k.files[k.open[fd].place] == STAGED
    modifies k`files, k`trace, k`faults
    ensures k.Valid() && OnlyAt(old(k.trace), k.trace, k.open[fd].place, old(k.files))
    ensures k.files - {k.open[fd].place} == old(k.files) - {k.open[fd].place}
    ensures !raised ==> Lookup(k.files, k.open[fd].place) == Some(STAGED.(bytes := payload))
    ensures k.faults >= old(k.faults) && (k.faults == old(k.faults) ==> !raised)
  {
    var ok, file := k.StatFile(fd);
    if !ok || !file.regular || file.links != 1 || !file.owned { return true; }
    ok := k.Control(fd);
    if !ok { return true; }
    raised := WriteAll(k, fd, payload);
    if raised { return; }
    ok := k.Control(fd);
    if !ok { return true; }
    ok, file := k.StatFile(fd);
    if !ok || !file.regular || file.links != 1 || !file.owned || |file.bytes| != |payload| { return true; }
    ok := k.Control(fd);
    if !ok { return true; }
    var bytes;
    ok, bytes := k.ReadBack(fd, |payload| + 1);
    raised := !ok || bytes != payload;
  }

  /** `write_owned_regular_file`: which system calls of the cleanup failed is reported beside the outcome. */
  datatype Written = Written(ok: bool, replaced: bool, unlinkFailed: bool, parentCloseFailed: bool)

  /** The commit point: before it the place has one file, from it on another. */
  predicate Switches(trace: seq<Files>, from: nat, commit: nat, place: Place, before: Option<File>, after: Option<File>) {
    && from <= commit <= |trace|
    && (forall i :: from <= i < commit ==> Lookup(trace[i], place) == before)
    && (forall i :: commit <= i < |trace| ==> Lookup(trace[i], place) == after)
  }

  /** The staging part, up to and including the replacement; a staged descriptor is closed in any case. */
  method StageAndReplace(k: Process, directory: nat, temporary: Text, name: Text, payload: Bytes)
    returns (raised: bool, replaced: bool, ghost commit: nat)
    requires k.Valid() && k.IsDirectory(directory) && temporary != name
    modifies k`open, k`next, k`files, k`trace, k`faults
    ensures k.Valid() && old(k.trace) <= k.trace && k.open == old(k.open)
    ensures raised == !replaced && (replaced <==> commit < |k.trace|) && k.faults >= old(k.faults)
    ensures k.faults == old(k.faults) ==> (replaced <==> (old(k.open[directory].dir), temporary) !in old(k.files))
    ensures var dir := old(k.open[directory].dir);
            && Switches(k.trace, |old(k.trace)|, commit, (dir, name), Lookup(old(k.files), (dir, name)),
                        Some(STAGED.(bytes := payload)))
            && k.files - {(dir, temporary), (dir, name)} == old(k.files) - {(dir, temporary), (dir, name)}
            && (if replaced then Lookup(k.files, (dir, name)) == Some(STAGED.(bytes := payload)) && (dir, temporary) !in k.files
                else Lookup(k.files, (dir, name)) == Lookup(old(k.files), (dir, name)))
  {
    ghost var dir := k.open[directory].dir;
    var created := k.CreateFile(directory, temporary);
    commit := |k.trace|;
    if !created.Descriptor? { return true, false, commit; }
    ghost var trace, files := k.trace, k.files;
    raised := Fill(k, created.fd, payload);
    OnlyAtLeavesOthers(trace, k.trace, (dir, temporary), files, (dir, name));
    Elsewhere(k.files, files, (dir, temporary), (dir, name));
    assert k.files - {(dir, temporary)} == old(k.files) - {(dir, temporary)};
    var closed := k.Close(created.fd);
    commit := |k.trace|;
    SmallerMaps(k.files, old(k.files), (dir, temporary), (dir, name));
    if raised || !closed { return true, false, commit; }
    replaced := k.Replace(directory, temporary, name);
    raised := !replaced;
    if replaced { var _ := k.Control(directory); } else { commit := |k.trace|; }
  }

  /** The clean-up of a file that was not published. */
  method RemoveStaged(k: Process, directory: nat, temporary: Text, name: Text) returns (failed: bool)
    requires k.Valid() && k.IsDirectory(directory) && temporary != name
    modifies k`files, k`trace, k`faults
    ensures k.Valid() && k.trace == old(k.trace) + [k.files] && k.faults == old(k.faults) + (if failed then 1 else 0)
    ensures var staged, target := (k.open[directory].dir, temporary), (k.open[directory].dir, name);
            && k.files == (if failed then old(k.files) else old(k.files) - {staged})
            && Lookup(k.files, target) == Lookup(old(k.files), target)
            && k.files - {staged, target} == old(k.files) - {staged, target}
  {
    ghost var staged, target := (k.open[directory].dir, temporary), (k.open[directory].dir, name);
    failed := k.Unlink(directory, temporary);
    assert k.files - {staged} == old(k.files) - {staged};
    Elsewhere(k.files, old(k.files), staged, target);
    SmallerMaps(k.files, old(k.files), staged, target);
  }

  /** What `write_owned_regular_file` needs of the files: a safe parent, no unacceptable target, a free staging name. */
  predicate Replaceable(directories: map<Place, nat>, safe: set<nat>, files: Files, path: Path, temporary: Text, payload: Bytes) {
    && 1 <= |payload| <= MAX_ASSET && HasSafeParent(directories, safe, path)
    && var target, staged := (Parent(directories, path).value, path.name), (Parent(directories, path).value, temporary);
       (target in files ==> Acceptable(files[target])) && staged !in files
  }

  /** `write_owned_regular_file`, with a staging name chosen by the caller of the random generator. */
  method WriteOwnedFile(k: Process, path: Path, temporary: Text, payload: Bytes) returns (w: Written, ghost commit: nat)
    requires k.Valid() && temporary != path.name
    modifies k`open, k`next, k`files, k`trace, k`faults
    ensures k.Valid() && k.open == old(k.open) && old(k.trace) <= k.trace
    ensures k.faults >= old(k.faults)
    ensures k.faults == old(k.faults) ==>
              (w.ok <==> Replaceable(k.directories, k.safe, old(k.files), path, temporary, payload))
    ensures w.ok ==> w.replaced
    ensures w.replaced && !w.ok ==> w.parentCloseFailed
    ensures w.replaced ==> Parent(k.directories, path).Some? && Parent(k.directories, path).value in k.safe
                           && 1 <= |payload| <= MAX_ASSET
    ensures w.replaced <==> commit < |k.trace|
    ensures Parent(k.directories, path).None? ==> k.files == old(k.files)
    ensures Parent(k.directories, path).Some? ==>
              var dir := Parent(k.directories, path).value;
              var target, staged := (dir, path.name), (dir, temporary);
              && Switches(k.trace, |old(k.trace)|, commit, target, Lookup(old(k.files), target),
                          Some(STAGED.(bytes := payload)))
              && Lookup(k.files, target) == (if w.replaced then Some(STAGED.(bytes := payload)) else Lookup(old(k.files), target))
              && k.files - {staged, target} == old(k.files) - {staged, target}
              && (w.replaced ==> staged !in k.files)
              && (staged !in old(k.files) && staged in k.files ==> !w.replaced && w.unlinkFailed)
              && (staged !in old(k.files) && !w.replaced && !w.unlinkFailed ==> k.files == old(k.files))
  {
    w, commit := Written(false, false, false, false), |k.trace|;
    if !(1 <= |payload| <= MAX_ASSET) { return; }
    var parent := OpenOwnedParent(k, path);
    commit := |k.trace|;
    if parent.Raised? { return; }
    var directory := parent.value;
    ghost var dir := Parent(k.directories, path).value;
    ghost var target, staged := (dir, path.name), (dir, temporary);
    var raised := CheckExisting(k, directory, path.name);
    commit := |k.trace|;
    var replaced, unlinkFailed := false, false;
    if !raised { raised, replaced, commit := StageAndReplace(k, directory, temporary, path.name, payload); }
    if !replaced { unlinkFailed := RemoveStaged(k, directory, temporary, path.name); }
    var closed := k.Close(directory);
    if !replaced { commit := |k.trace|; }
    if !replaced && staged !in k.files && staged !in old(k.files) { SameFiles(k.files, old(k.files), staged, target); }
    w := Written(!raised && !unlinkFailed && closed, replaced, unlinkFailed, !closed);
  }

  // ---------------------------------------------------------- the review workspace

  const PATCH: Text := S("change.patch")
  const METADATA: Text := S("review-metadata.json")

  function Inside(path: Path, name: Text): Path { Path(path.start, path.components + [path.name], name) }

  lemma {:induction false} WalkedStays(directories: map<Place, nat>, place: Place, dir: nat, path: Path, name: Text, n: nat)
    requires n <= |path.components| && Walked(directories, path, n).Some? && place !in directories
    ensures Walked(directories[place := dir], Inside(path, name), n) == Walked(directories, path, n)
  {
    if n > 0 { WalkedStays(directories, place, dir, path, name, n - 1); }
  }

  /** A file inside the new directory has it as its parent. */
  lemma InsideParent(directories: map<Place, nat>, dir: nat, path: Path, name: Text)
    requires Parent(directories, path).Some? && ProperName(path.name)
    requires (Parent(directories, path).value, path.name) !in directories
    ensures Parent(directories[(Parent(directories, path).value, path.name) := dir], Inside(path, name)) == Some(dir)
  {
    WalkedStays(directories, (Parent(directories, path).value, path.name), dir, path, name, |path.components|);
  }

  /** Everything outside one directory is the same. */
  ghost predicate SameOutside(a: Files, b: Files, dir: nat) {
    forall p: Place | p.0 != dir :: Lookup(a, p) == Lookup(b, p)
  }

  lemma OutsideKept(a: Files, b: Files, dir: nat, x: Text, y: Text)
    requires a - {(dir, x), (dir, y)} == b - {(dir, x), (dir, y)}
    ensures SameOutside(a, b, dir)
  {
    forall p: Place | p.0 != dir ensures Lookup(a, p) == Lookup(b, p) {
      assert p in a <==> p in a - {(dir, x), (dir, y)};
      assert p in b <==> p in b - {(dir, x), (dir, y)};
    }
  }

  lemma EmptyDirectoryRestored(a: Files, b: Files, dir: nat)
    requires SameOutside(a, b, dir) && (forall p :: p in a ==> p.0 != dir) && (forall p :: p in b ==> p.0 != dir)
    ensures a == b
  {
    forall p: Place ensures Lookup(a, p) == Lookup(b, p) {
      if p.0 == dir { assert p !in a && p !in b; }
    }
    assert forall p :: p in a <==> Lookup(a, p).Some?;
    assert forall p :: p in b <==> Lookup(b, p).Some?;
    assert a.Keys == b.Keys;
    forall p | p in a ensures a[p] == b[p] { assert Lookup(a, p) == Lookup(b, p); }
  }

  /** One file of the workspace: written whole when it reports so, and nothing outside the directory changes. */
  method WriteInside(k: Process, path: Path, dir: nat, name: Text, temporary: Text, payload: Bytes) returns (ok: bool)
    requires k.Valid() && Parent(k.directories, Inside(path, name)) == Some(dir) && temporary !in {PATCH, METADATA}
    requires name in {PATCH, METADATA}
    modifies k`open, k`next, k`files, k`trace, k`faults
    ensures k.Valid() && k.open == old(k.open) && SameOutside(k.files, old(k.files), dir)
    ensures k.faults >= old(k.faults)
    ensures k.faults == old(k.faults) ==>
              (ok <==> Replaceable(k.directories, k.safe, old(k.files), Inside(path, name), temporary, payload))
    ensures ok ==> (dir, temporary) !in k.files
    ensures ok ==> Lookup(k.files, (dir, name)) == Some(STAGED.(bytes := payload))
    ensures forall other :: other != name && other != temporary ==>
              Lookup(k.files, (dir, other)) == Lookup(old(k.files), (dir, other))
  {
    var w, commit := WriteOwnedFile(k, Inside(path, name), temporary, payload);
    ok := w.ok;
    OutsideKept(k.files, old(k.files), dir, temporary, name);
    forall other | other != name && other != temporary
      ensures Lookup(k.files, (dir, other)) == Lookup(old(k.files), (dir, other))
    {
      assert (dir, other) in k.files <==> (dir, other) in k.files - {(dir, temporary), (dir, name)};
      assert (dir, other) in old(k.files) <==> (dir, other) in old(k.files) - {(dir, temporary), (dir, name)};
    }
  }

  /** Both files of a new workspace. */
  method WriteBoth(k: Process, path: Path, dir: nat, diff: Bytes, metadata: Bytes, temporary: Text, temporary': Text)
    returns (ok: bool)
    requires k.Valid() && temporary !in {PATCH, METADATA} && temporary' !in {PATCH, METADATA} && dir in k.safe
    requires Parent(k.directories, Inside(path, PATCH)) == Some(dir) && Parent(k.directories, Inside(path, METADATA)) == Some(dir)
    requires forall p :: p in k.files ==> p.0 != dir
    modifies k`open, k`next, k`files, k`trace, k`faults
    ensures k.Valid() && k.open == old(k.open) && SameOutside(k.files, old(k.files), dir) && k.faults >= old(k.faults)
    ensures k.faults == old(k.faults) ==> (ok <==> 1 <= |diff| <= MAX_ASSET && 1 <= |metadata| <= MAX_ASSET)
    ensures ok ==>
              && Lookup(k.files, (dir, PATCH)) == Some(STAGED.(bytes := diff))
              && Lookup(k.files, (dir, METADATA)) == Some(STAGED.(bytes := metadata))
  {
    NamesDiffer();
    ok := WriteInside(k, path, dir, PATCH, temporary, diff);
    if !ok { return; }
    assert Lookup(k.files, (dir, METADATA)).None?;
    assert temporary' != temporary ==> Lookup(k.files, (dir, temporary')).None?;
    ok := WriteInside(k, path, dir, METADATA, temporary', metadata);
  }

  lemma NamesDiffer()
    ensures PATCH != METADATA && ProperName(PATCH) && ProperName(METADATA)
  {
    assert |PATCH| == 12 && |METADATA| == 20;
  }

  /** `write_materialized_workspace`: both files are published, or everything is as before, or a cleanup failed. */
  method WriteWorkspace(k: Process, path: Path, diff: Bytes, metadata: Bytes, temporary: Text, temporary': Text)
    returns (ok: bool, cleanupFailed: bool)
    requires k.Valid() && temporary !in {PATCH, METADATA} && temporary' !in {PATCH, METADATA}
    modifies k`open, k`next, k`files, k`trace, k`faults, k`directories, k`safe
    ensures k.Valid() && k.open == old(k.open)
    ensures k.faults >= old(k.faults)
    ensures k.faults == old(k.faults) ==>
              (ok <==>
                 && Parent(old(k.directories), path).Some? && ProperName(path.name)
                 && (Parent(old(k.directories), path).value, path.name) !in old(k.directories)
                 && (Parent(old(k.directories), path).value, path.name) !in old(k.files)
                 && 1 <= |diff| <= MAX_ASSET && 1 <= |metadata| <= MAX_ASSET)
    ensures ok ==>
              && Parent(old(k.directories), path).Some?
              && var place := (Parent(old(k.directories), path).value, path.name);
                 && place !in old(k.directories) && place in k.directories
                 && Lookup(k.files, (k.directories[place], PATCH)) == Some(STAGED.(bytes := diff))
                 && Lookup(k.files, (k.directories[place], METADATA)) == Some(STAGED.(bytes := metadata))
                 && SameOutside(k.files, old(k.files), k.directories[place])
    ensures !ok && !cleanupFailed ==> k.directories == old(k.directories) && k.files == old(k.files)
  {
    ok, cleanupFailed := false, false;
    var parent := Parent(k.directories, path);
    if parent.None? || !ProperName(path.name) { return; }
    var place := (parent.value, path.name);
    if place in k.directories || place in k.files { return; }
    var made := k.MakeDirectory(place);
    if made.None? { return; }
    var dir := made.value;
    InsideParent(old(k.directories), dir, path, PATCH);
    InsideParent(old(k.directories), dir, path, METADATA);
    ok := WriteBoth(k, path, dir, diff, metadata, temporary, temporary');
    if ok { return; }
    ghost var files := k.files;
    var metadataGone := k.UnlinkPath((dir, METADATA));
    var patchGone := k.UnlinkPath((dir, PATCH));
    assert SameOutside(k.files, files, dir);
    var removed := k.RemoveDirectory(place);
    cleanupFailed := !metadataGone || !patchGone || !removed;
    if removed { EmptyDirectoryRestored(k.files, old(k.files), dir); }
  }
}
