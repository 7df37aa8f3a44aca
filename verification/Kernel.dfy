/** Descriptors, directories and files as one process sees them; every system call may fail. */

module Kernel {
  import opened Outcomes
  import opened Text

  type Place = (nat, Text)

  /** A directory entry that is no directory; shared means writable by group or others. */
  datatype File = File(bytes: Bytes, regular: bool, links: nat, owned: bool, shared: bool)

  datatype Handle = Directory(dir: nat) | Regular(place: Place)

  datatype Opened = Descriptor(fd: nat) | NotFound | Error

  type Files = map<Place, File>

  function Lookup(files: Files, place: Place): Option<File> { if place in files then Some(files[place]) else None }

  /** From some state on, every state has this at the place. */
  predicate Steady(trace: seq<Files>, from: nat, place: Place, file: Option<File>) {
    forall i :: from <= i < |trace| ==> Lookup(trace[i], place) == file
  }

  /**
   * The trace keeps the files after each system call, and faults counts the calls that failed although nothing in the
   * files and directories prevented them. Descriptor numbers are never reused.
   */
  class Process {
    var directories: map<Place, nat>
    var safe: set<nat>
    var files: Files
    var open: map<nat, Handle>
    var next: nat
    ghost var trace: seq<Files>
    ghost var faults: nat

    ghost predicate Valid()
      reads this
    {
      forall fd :: fd in open ==> fd < next
    }

    constructor (directories: map<Place, nat>, safe: set<nat>, files: Files)
      ensures Valid() && this.directories == directories && this.safe == safe && this.files == files
      ensures open == map[] && trace == [] && faults == 0
    {
      this.directories, this.safe, this.files := directories, safe, files;
      open, next, trace, faults := map[], 0, [], 0;
    }

    predicate IsDirectory(fd: nat)
      reads this
    {
      fd in open && open[fd].Directory?
    }

    predicate IsFile(fd: nat)
      reads this
    {
      fd in open && open[fd].Regular? && open[fd].place in files
    }

    /** A new descriptor for a handle. */
    method Allocate(handle: Handle) returns (fd: nat)
      requires Valid()
      modifies `open, `next, `trace
      ensures Valid() && fd !in old(open) && open == old(open)[fd := handle]
      ensures trace == old(trace) + [files]
    {
      fd := next;
      open, next := open[fd := handle], next + 1;
      trace := trace + [files];
    }

    /** Opens a starting directory: the root, or the current one. */
    method OpenStart(dir: nat) returns (r: Opened)
      requires Valid()
      modifies `open, `next, `trace, `faults
      ensures Valid() && trace == old(trace) + [files]
      ensures faults == old(faults) + (if r.Descriptor? then 0 else 1)
      ensures if r.Descriptor? then r.fd !in old(open) && open == old(open)[r.fd := Directory(dir)] else open == old(open)
    {
      if * {
        faults := faults + 1;
        trace := trace + [files];
        return Error;
      }
      var fd := Allocate(Directory(dir));
      r := Descriptor(fd);
    }

    /** Opens a component below a directory; a link, a file or no entry is an error. */
    method OpenDirectory(fd: nat, name: Text) returns (r: Opened)
      requires Valid() && IsDirectory(fd)
      modifies `open, `next, `trace, `faults
      ensures Valid() && trace == old(trace) + [files]
      ensures faults == old(faults) + (if r.Error? then 1 else 0)
      ensures r.NotFound? ==> (old(open[fd].dir), name) !in directories
      ensures if r.Descriptor?
              then (old(open[fd].dir), name) in directories && r.fd !in old(open)
                   && open == old(open)[r.fd := Directory(directories[(old(open[fd].dir), name)])]
              else open == old(open)
    {
      var place := (open[fd].dir, name);
      if * {
        faults := faults + 1;
        trace := trace + [files];
        return Error;
      }
      if place !in directories {
        trace := trace + [files];
        return NotFound;
      }
      var child := Allocate(Directory(directories[place]));
      r := Descriptor(child);
    }

    /** Opens an existing file without following links. */
    method OpenFile(fd: nat, name: Text) returns (r: Opened)
      requires Valid() && IsDirectory(fd)
      modifies `open, `next, `trace, `faults
      ensures Valid() && trace == old(trace) + [files]
      ensures faults == old(faults) + (if r.Error? then 1 else 0)
      ensures r.NotFound? ==> (old(open[fd].dir), name) !in files
      ensures if r.Descriptor?
              then (old(open[fd].dir), name) in files && r.fd !in old(open)
                   && open == old(open)[r.fd := Regular((old(open[fd].dir), name))]
              else open == old(open)
    {
      var place := (open[fd].dir, name);
      if * {
        faults := faults + 1;
        trace := trace + [files];
        return Error;
      }
      if place !in files {
        trace := trace + [files];
        return NotFound;
      }
      var child := Allocate(Regular(place));
      r := Descriptor(child);
    }

    /** Creates a file exclusively. */
    method CreateFile(fd: nat, name: Text) returns (r: Opened)
      requires Valid() && IsDirectory(fd)
      modifies `open, `next, `files, `trace, `faults
      ensures Valid() && trace == old(trace) + [files]
      ensures r.Descriptor? ==> faults == old(faults)
      ensures !r.Descriptor? ==> faults == old(faults) + if (old(open[fd].dir), name) in old(files) then 0 else 1
      ensures var place := (old(open[fd].dir), name);
              if r.Descriptor?
              then place !in old(files) && files == old(files)[place := File([], true, 1, true, false)]
                   && r.fd !in old(open) && open == old(open)[r.fd := Regular(place)]
              else open == old(open) && files == old(files)
    {
      var place := (open[fd].dir, name);
      if place in files {
        trace := trace + [files];
        return Error;
      }
      if * {
        faults := faults + 1;
        trace := trace + [files];
        return Error;
      }
      files := files[place := File([], true, 1, true, false)];
      var child := Allocate(Regular(place));
      r := Descriptor(child);
    }

    /** `fstat` of a directory: whether it is owned and not writable by others. */
    method StatDirectory(fd: nat) returns (ok: bool, isSafe: bool)
      requires Valid() && IsDirectory(fd)
      modifies `trace, `faults
      ensures Valid() && trace == old(trace) + [files] && (ok ==> isSafe == (open[fd].dir in safe))
      ensures faults == old(faults) + (if ok then 0 else 1)
    {
      ok, isSafe := *, open[fd].dir in safe;
      if !ok { faults := faults + 1; }
      trace := trace + [files];
    }

    method StatFile(fd: nat) returns (ok: bool, file: File)
      requires Valid() && IsFile(fd)
      modifies `trace, `faults
      ensures Valid() && trace == old(trace) + [files] && file == files[open[fd].place]
      ensures faults == old(faults) + (if ok then 0 else 1)
    {
      ok, file := *, files[open[fd].place];
      if !ok { faults := faults + 1; }
      trace := trace + [files];
    }

    /** Appends a beginning of the data, of any length. */
    method Write(fd: nat, data: Bytes) returns (ok: bool, written: nat)
      requires Valid() && IsFile(fd)
      modifies `files, `trace, `faults
      ensures Valid() && trace == old(trace) + [files] && written <= |data|
      ensures faults == old(faults) + (if ok && (written > 0 || data == []) then 0 else 1)
      ensures var place := old(open[fd]).place;
              files == old(files)[place := old(files)[place].(bytes := old(files)[place].bytes + data[..written])]
    {
      var place := open[fd].place;
      ok, written := *, 0;
      if ok {
        var n: nat :| n <= |data|;
        written := n;
      }
      if !ok || (written == 0 && data != []) { faults := faults + 1; }
      files := files[place := files[place].(bytes := files[place].bytes + data[..written])];
      trace := trace + [files];
    }

    /** Reads at most length bytes from the beginning. */
    method ReadBack(fd: nat, length: nat) returns (ok: bool, bytes: Bytes)
      requires Valid() && IsFile(fd)
      modifies `trace, `faults
      ensures Valid() && trace == old(trace) + [files] && faults == old(faults) + (if ok then 0 else 1)
      ensures var content := files[open[fd].place].bytes; bytes == if |content| <= length then content else content[..length]
    {
      var content := files[open[fd].place].bytes;
      ok, bytes := *, if |content| <= length then content else content[..length];
      if !ok { faults := faults + 1; }
      trace := trace + [files];
    }

    /** A system call on an open descriptor that changes nothing a reader sees. */
    method Control(fd: nat) returns (ok: bool)
      requires Valid() && fd in open
      modifies `trace, `faults
      ensures Valid() && trace == old(trace) + [files] && faults == old(faults) + (if ok then 0 else 1)
    {
      ok := *;
      if !ok { faults := faults + 1; }
      trace := trace + [files];
    }

    /** The descriptor is gone, whatever close reports. */
    method Close(fd: nat) returns (ok: bool)
      requires Valid() && fd in open
      modifies `open, `trace, `faults
      ensures Valid() && open == old(open) - {fd} && trace == old(trace) + [files]
      ensures faults == old(faults) + (if ok then 0 else 1)
    {
      ok, open := *, open - {fd};
      if !ok { faults := faults + 1; }
      trace := trace + [files];
    }

    /** Renames over the target, atomically. */
    method Replace(fd: nat, from: Text, target: Text) returns (ok: bool)
      requires Valid() && IsDirectory(fd) && from != target
      modifies `files, `trace, `faults
      ensures Valid() && trace == old(trace) + [files]
      ensures faults == old(faults) + (if ok || (old(open[fd].dir), from) !in old(files) then 0 else 1)
      ensures var place := (old(open[fd].dir), from);
              if ok then place in old(files) && files == (old(files) - {place})[(old(open[fd].dir), target) := old(files)[place]]
              else files == old(files)
    {
      var place := (open[fd].dir, from);
      ok := false;
      if place in files {
        ok := *;
        if ok { files := (files - {place})[(open[fd].dir, target) := files[place]]; } else { faults := faults + 1; }
      }
      trace := trace + [files];
    }

    /** Removes a name; failed means that the call raised something other than a missing name. */
    method Unlink(fd: nat, name: Text) returns (failed: bool)
      requires Valid() && IsDirectory(fd)
      modifies `files, `trace, `faults
      ensures Valid() && trace == old(trace) + [files] && faults == old(faults) + (if failed then 1 else 0)
      ensures files == if failed then old(files) else old(files) - {(old(open[fd].dir), name)}
    {
      failed := *;
      if !failed { files := files - {(open[fd].dir, name)}; } else { faults := faults + 1; }
      trace := trace + [files];
    }

    /** Makes an owned directory that has no entries yet, unless something has the name. */
    method MakeDirectory(place: Place) returns (made: Option<nat>)
      requires Valid()
      modifies `directories, `safe, `trace, `faults
      ensures Valid() && trace == old(trace) + [files]
      ensures faults == old(faults) + (if made.Some? || place in old(directories) || place in files then 0 else 1)
      ensures match made
              case None => directories == old(directories) && safe == old(safe)
              case Some(dir) =>
                && place !in old(directories) && place !in files && directories == old(directories)[place := dir]
                && safe == old(safe) + {dir}
                && (forall p :: p in files ==> p.0 != dir)
    {
      var dir: nat, ok: bool := *, *;
      trace := trace + [files];
      if !ok || place in directories || place in files || dir == place.0
        || (exists p :: p in files && p.0 == dir) {
        if place !in directories && place !in files { faults := faults + 1; }
        return None;
      }
      directories, safe := directories[place := dir], safe + {dir};
      made := Some(dir);
    }

    /** Removes the name of a directory without entries. */
    method RemoveDirectory(place: Place) returns (ok: bool)
      requires Valid() && place in directories
      modifies `directories, `trace, `faults
      ensures Valid() && trace == old(trace) + [files]
      ensures faults == old(faults) + (if ok || (exists p :: p in files && p.0 == old(directories[place])) then 0 else 1)
      ensures directories == if ok then old(directories) - {place} else old(directories)
      ensures ok ==> forall p :: p in files ==> p.0 != old(directories[place])
    {
      var dir := directories[place];
      ok := *;
      trace := trace + [files];
      if exists p :: p in files && p.0 == dir { ok := false; } else if !ok { faults := faults + 1; }
      if ok { directories := directories - {place}; }
    }

    /** `Path.unlink(missing_ok=True)` */
    method UnlinkPath(place: Place) returns (ok: bool)
      requires Valid()
      modifies `files, `trace, `faults
      ensures Valid() && trace == old(trace) + [files] && faults == old(faults) + (if ok then 0 else 1)
      ensures files == if ok then old(files) - {place} else old(files)
    {
      ok := *;
      if ok { files := files - {place}; } else { faults := faults + 1; }
      trace := trace + [files];
    }
  }
}
