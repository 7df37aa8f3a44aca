/** Bounded exchanges with child processes, for every way the system splits reads and writes. */

module Streams {
  import opened Outcomes
  import opened Text

  /** The reading end of a pipe: content is all that the other side ever writes. */
  class Pipe {
    const content: Bytes
    var position: nat

    constructor (content: Bytes)
      ensures this.content == content && position == 0
    {
      this.content, position := content, 0;
    }

    ghost predicate Valid()
      reads this
    {
      position <= |content|
    }

    /** At least one byte while there are any; nothing only at the end. */
    method Read(most: nat) returns (chunk: Bytes)
      requires Valid() && 0 < most
      modifies this
      ensures Valid() && position == old(position) + |chunk| && |chunk| <= most
      ensures chunk == content[old(position)..position] && content[..position] == old(content[..position]) + chunk
      ensures chunk == [] <==> old(position) == |content|
    {
      if position == |content| { return []; }
      var n: nat :| 0 < n <= most && n <= |content| - position;
      chunk := content[position..position + n];
      assert content[..position + n] == content[..position] + chunk;
      position := position + n;
    }
  }

  /** The writing end of a pipe: received is what the other side gets; broken and stalled say how a write went wrong. */
  class Sink {
    var received: Bytes
    ghost var broken: bool
    ghost var stalled: bool

    constructor ()
      ensures received == [] && !broken && !stalled
    {
      received := [];
      broken, stalled := false, false;
    }

    /** Takes a beginning of the data, or raises. */
    method Write(data: Bytes) returns (ok: bool, written: nat)
      modifies this
      ensures written <= |data| && received == old(received) + data[..written]
      ensures broken == (old(broken) || !ok)
      ensures stalled == (old(stalled) || (ok && written == 0 && data != []))
    {
      ok, written := *, 0;
      if ok {
        var n: nat :| n <= |data|;
        written := n;
      }
      received := received + data[..written];
      if !ok { broken := true; }
      if ok && written == 0 && data != [] { stalled := true; }
    }
  }

  /** A time limit: it passes after some number of rounds. */
  class Deadline {
    var left: nat
    ghost var passed: bool

    constructor (rounds: nat)
      ensures left == rounds && !passed
    {
      left, passed := rounds, false;
    }

    /** Whether it has passed when another round begins. */
    method Passes() returns (over: bool)
      modifies this
      ensures if over then passed && left == old(left) else passed == old(passed) && left < old(left)
    {
      if left == 0 {
        passed := true;
        return true;
      }
      left := left - 1;
      over := false;
    }
  }

  const READ_SIZE := 65536

  function Lesser(a: nat, b: nat): nat { if a < b then a else b }

  // -------------------------------------------------------------- NativeCLI.run

  /**
   * `NativeCLI.run`: a round of the loop is one answer of select; exits says that the child ends in time. It returns the
   * complete output, after the complete payload was taken in order, exactly when nothing went wrong and the output is
   * within its bound.
   */
  method RunCommand(output: Pipe, input: Sink, deadline: Deadline, payload: Bytes, limit: nat, exits: bool, exitCode: int)
    returns (r: Result<Bytes>, ghost kept: nat)
    requires output.Valid() && output.position == 0 && input.received == [] && !input.broken && !deadline.passed
    modifies output, input, deadline
    ensures r.Ok? ==> r.value == output.content && |r.value| <= limit && input.received == payload && exitCode == 0
    ensures input.received <= payload && kept <= limit + 1
    ensures r.Ok? <==> !deadline.passed && !input.broken && exits && |output.content| <= limit && exitCode == 0
  {
    var bytes: Bytes := [];
    var offset := 0;
    var reading, writing := true, payload != [];
    kept := 0;
    while reading || writing
      invariant output.Valid() && bytes == output.content[..output.position] && |bytes| <= limit && kept == |bytes|
      invariant offset <= |payload| && input.received == payload[..offset] && (!writing ==> offset == |payload|)
      invariant !reading ==> output.position == |output.content|
      invariant !deadline.passed && !input.broken
      decreases deadline.left
    {
      var over := deadline.Passes();
      if over { return Raised, kept; }
      var writable, readable := *, *;
      if writing && writable {
        var chunk := payload[offset..Lesser(offset + READ_SIZE, |payload|)];
        var ok, written := input.Write(chunk);
        assert chunk[..written] == payload[offset..offset + written];
        assert payload[..offset] + payload[offset..offset + written] == payload[..offset + written];
        offset := offset + written;
        if !ok { return Raised, kept; }
        if offset == |payload| { writing := false; }
      }
      if reading && readable {
        var data := output.Read(Lesser(READ_SIZE, limit + 1 - |bytes|));
        if data == [] {
          reading := false;
        } else {
          bytes := bytes + data;
          kept := |bytes|;
          if |bytes| > limit { return Raised, kept; }
        }
      }
    }
    assert output.content[..output.position] == output.content && payload[..offset] == payload;
    r := if !exits || exitCode != 0 then Raised else Ok(bytes);
  }

  // ---------------------------------------------------------------- git_output

  lemma TakeMore(s: Bytes, i: nat, j: nat, n: nat)
    requires i <= j <= |s| && n <= j - i
    ensures s[..i] + s[i..j][..n] == s[..i + n]
  {
  }

  datatype GitOutput = Output(bytes: Bytes) | TimedOut | TooLarge | Failed(message: Bytes)

  const ERROR_SIZE: nat := 65536

  /**
   * The bounded branch of `git_output`: the limit is exclusive, and one byte beyond what is still allowed is read to
   * notice it. The output is complete when it is returned, and too large exactly when it reaches the limit.
   */
  method BoundedOutput(stdout: Pipe, stderr: Pipe, deadline: Deadline, maxBytes: nat, exits: bool, exitCode: int)
    returns (r: GitOutput, ghost kept: nat)
    requires !deadline.passed && stdout != stderr && stdout.Valid() && stderr.Valid() && stdout.position == 0 && stderr.position == 0
    requires 0 < maxBytes
    modifies stdout, stderr, deadline
    ensures kept < maxBytes
    ensures r.TimedOut? <==> deadline.passed || !exits
    ensures r.TooLarge? <==> !r.TimedOut? && |stdout.content| >= maxBytes
    ensures r.Failed? <==> !r.TimedOut? && !r.TooLarge? && exitCode != 0
    ensures match r
            case Output(bytes) => bytes == stdout.content && |bytes| < maxBytes && exitCode == 0
            case TooLarge => |stdout.content| >= maxBytes
            case Failed(message) =>
              exitCode != 0 && |stdout.content| < maxBytes
              && message == stderr.content[..Lesser(ERROR_SIZE, |stderr.content|)]
            case TimedOut => true
  {
    var out: Bytes, err: Bytes := [], [];
    var readingOut, readingErr, exceeded := true, true, false;
    while readingOut || readingErr
      invariant stdout.Valid() && stderr.Valid()
      invariant out == stdout.content[..Lesser(stdout.position, maxBytes - 1)]
      invariant err == stderr.content[..Lesser(stderr.position, ERROR_SIZE)]
      invariant exceeded == (stdout.position >= maxBytes)
      invariant !readingOut ==> stdout.position == |stdout.content|
      invariant !readingErr ==> stderr.position == |stderr.content|
      invariant !deadline.passed
      decreases deadline.left
    {
      var over := deadline.Passes();
      if over { return TimedOut, |out|; }
      var outReady, errReady := *, *;
      if readingOut && outReady {
        var allowed := maxBytes - 1 - |out|;
        var chunk := stdout.Read(Lesser(READ_SIZE, allowed + 1));
        if chunk == [] {
          readingOut := false;
        } else {
          ghost var before := stdout.position - |chunk|;
          if allowed > 0 {
            TakeMore(stdout.content, before, stdout.position, Lesser(allowed, |chunk|));
            out := out + chunk[..Lesser(allowed, |chunk|)];
          }
          if |chunk| > allowed { exceeded := true; }
        }
      }
      if readingErr && errReady {
        var chunk := stderr.Read(READ_SIZE);
        if chunk == [] {
          readingErr := false;
        } else if |err| < ERROR_SIZE {
          TakeMore(stderr.content, stderr.position - |chunk|, stderr.position, Lesser(ERROR_SIZE - |err|, |chunk|));
          err := err + chunk[..Lesser(ERROR_SIZE - |err|, |chunk|)];
        }
      }
    }
    kept := |out|;
    if !exits { return TimedOut, kept; }
    if exceeded { return TooLarge, kept; }
    if exitCode != 0 { return Failed(err), kept; }
    assert stdout.content[..stdout.position] == stdout.content;
    r := Output(out);
  }
}
