/** The recovery secret, from the provider's pipe to the SSH consumer's, and its erasure. */

module Delivery {
  import opened Text
  import opened Streams

  predicate Zero(s: seq<Byte>) { forall i :: 0 <= i < |s| ==> s[i] == 0 }

  predicate Usable(s: Bytes) { forall i :: 0 <= i < |s| ==> s[i] != 0 && s[i] != 10 && s[i] != 13 }

  /** What a run did, in order. */
  datatype Step = Claimed | CoreDumpsDisabled | SecretRead | PasswordRevalidated | KeyRevalidated | Delivered

  const BEFORE_DELIVERY: seq<Step> := [Claimed, CoreDumpsDisabled, SecretRead, PasswordRevalidated, KeyRevalidated]

  /** The erasing loops. */
  method Erase(secret: array<Byte>)
    modifies secret
    ensures Zero(secret[..])
  {
    for index := 0 to secret.Length
      invariant Zero(secret[..index])
    {
      secret[index] := 0;
    }
    assert secret[..secret.Length] == secret[..];
  }

  /** `os.readv` into the rest of the buffer. */
  method ReadInto(source: Pipe, secret: array<Byte>, received: nat) returns (count: nat)
    requires source.Valid() && received < secret.Length
    modifies source, secret
    ensures source.Valid() && received + count <= secret.Length && source.position == old(source.position) + count
    ensures secret[..received] == old(secret[..received])
    ensures secret[..received + count] == old(secret[..received]) + source.content[old(source.position)..source.position]
    ensures secret[received + count..] == old(secret[received + count..])
    ensures count == 0 <==> old(source.position) == |source.content|
  {
    var chunk := source.Read(secret.Length - received);
    count := |chunk|;
    forall i | 0 <= i < |chunk| {
      secret[received + i] := chunk[i];
    }
    assert secret[received..received + count] == chunk;
    assert secret[..received + count] == secret[..received] + secret[received..received + count];
  }

  /** What a buffer holds after count bytes of a value were read into it. */
  predicate Holds(buffer: Bytes, content: Bytes, count: nat) {
    count <= |buffer| && count <= |content| && buffer[..count] == content[..count] && Zero(buffer[count..])
  }

  /** How many bytes of the value a buffer of this length has after position bytes were read. */
  function Kept(position: nat, length: nat): nat { if position < length then position else length }

  /**
   * The read loop, which a time limit or any call may end with an error. Otherwise the value was read to its end and is
   * not longer than the buffer; one byte more is noticed.
   */
  method Receive(source: Pipe, secret: array<Byte>, rounds: nat) returns (received: nat, raised: bool)
    requires source.Valid() && source.position == 0 && Zero(secret[..])
    modifies source, secret
    ensures source.Valid() && received == Kept(source.position, secret.Length) && Holds(secret[..], source.content, received)
    ensures !raised ==> source.position == |source.content| == received
    ensures |source.content| > secret.Length ==> raised && (rounds > |source.content| ==> received == secret.Length)
    ensures rounds > |source.content| && |source.content| <= secret.Length ==> !raised
  {
    received := 0;
    var left: nat := rounds;
    while true
      invariant source.Valid() && source.position == received <= secret.Length
      invariant Holds(secret[..], source.content, received)
      invariant rounds > |source.content| ==> left + received > |source.content|
      decreases left
    {
      if left == 0 { return received, true; }
      left := left - 1;
      if received < secret.Length {
        ghost var before := secret[..];
        var count := ReadInto(source, secret, received);
        assert source.content[..received] + source.content[received..received + count] == source.content[..received + count];
        assert secret[..][received + count..] == before[received..][count..];
        if count == 0 { break; }
        received := received + count;
      } else {
        var overflow := source.Read(1);
        if overflow != [] { return received, true; }
        break;
      }
    }
    raised := false;
  }

  /**
   * What the system answers to a read: the producer starts, ends in time, with a code; at an error it may still run, and
   * then killing it and waiting for it may fail; closing the pipe may fail.
   */
  datatype Producer = Producer(starts: bool, ends: bool, code: int, runs: bool, killFails: bool, closeFails: bool)

  /** The value is there, of the expected length, and of allowed bytes. */
  predicate Deliverable(producer: Producer, content: Bytes, length: nat) {
    producer.starts && producer.ends && producer.code == 0 && |content| == length && Usable(content)
  }

  /** The handler leaves with an error of its own: the producer was not seen to end, runs on, and is not killed. */
  predicate Escapes(producer: Producer, waited: bool) {
    producer.starts && !waited && producer.runs && producer.killFails
  }

  /** What the call leaves in its buffer: the complete value, what was received when the handler escaped, or zeros. */
  predicate Leaves(buffer: Bytes, content: Bytes, received: nat, producer: Producer, waited: bool, complete: bool) {
    if complete then buffer == content
    else if Escapes(producer, waited) then Holds(buffer, content, received)
    else Zero(buffer)
  }

  /**
   * `_read_secret_bytes`: the complete value of the expected length, or an error. Two errors leave the buffer as it is:
   * a failed kill comes before the erasing loop, and a failed close after a complete read comes after the handler.
   */
  method ReadSecret(source: Pipe, length: nat, rounds: nat, producer: Producer)
    returns (secret: array<Byte>, raised: bool, ghost waited: bool, ghost complete: bool)
    requires source.Valid() && source.position == 0
    modifies source
    ensures source.Valid() && fresh(secret) && secret.Length == length
    ensures complete ==> waited && Deliverable(producer, source.content, length)
    ensures waited ==> producer.starts && producer.ends && source.position == |source.content| <= length
    ensures rounds > |source.content| ==> complete == Deliverable(producer, source.content, length)
    ensures rounds > |source.content| ==> waited == (producer.starts && producer.ends && |source.content| <= length)
    ensures rounds > |source.content| > length && producer.starts ==> source.position >= length
    ensures raised <==> !complete || producer.closeFails
    ensures Leaves(secret[..], source.content, Kept(source.position, length), producer, waited, complete)
  {
    secret := new Byte[length](_ => 0);
    var received := 0;
    raised := !producer.starts;
    if !raised { received, raised := Receive(source, secret, rounds); }
    var ended := !raised && producer.ends;
    if !raised {
      raised := !ended || producer.code != 0 || received != length
        || exists i :: 0 <= i < secret.Length && secret[i] in {0, 10, 13};
    }
    complete := !raised;
    assert secret[..secret.Length] == secret[..] && source.content[..|source.content|] == source.content;
    waited := ended;
    var running := producer.starts && !ended && producer.runs;
    if raised && !(running && producer.killFails) { Erase(secret); }
    if producer.closeFails { raised := true; }
  }

  /** What the system answers to the consumer: it starts, and ends in time, with a code. */
  datatype Consumer = Consumer(starts: bool, ends: bool, code: int)

  /** The write loop of `_run_ssh`: the consumer gets the buffer's bytes in order, and all of them on success. */
  method RunConsumer(sink: Sink, secret: array<Byte>, consumer: Consumer) returns (raised: bool)
    requires sink.received == [] && !sink.broken && !sink.stalled
    modifies sink
    ensures sink.received <= secret[..] && (!raised ==> sink.received == secret[..] && consumer.code == 0)
    ensures raised <==> !consumer.starts || sink.broken || sink.stalled || !consumer.ends || consumer.code != 0
  {
    if !consumer.starts { return true; }
    var offset := 0;
    while offset < secret.Length
      invariant offset <= secret.Length && sink.received == secret[..offset] && !sink.broken && !sink.stalled
    {
      var ok, written := sink.Write(secret[offset..]);
      assert secret[..offset] + secret[offset..][..written] == secret[..offset + written];
      offset := offset + written;
      if !ok || written == 0 { return true; }
    }
    raised := !consumer.ends || consumer.code != 0;
    assert secret[..secret.Length] == secret[..];
  }

  /** How the inspections, the claim, the core-dump boundary and the two revalidations end. */
  datatype Checks = Checks(inspected: bool, claimed: bool, disabled: bool, password: bool, key: bool)

  predicate AllPass(checks: Checks) {
    checks.inspected && checks.claimed && checks.disabled && checks.password && checks.key
  }

  /**
   * `_consume`: a delivery follows the claim, the read and both revalidations; unlocked means that the consumer got
   * exactly the provider's value, and comes about whenever everything works. Afterwards the buffer is zero, unless it had
   * received something else than zeros and then killing the running producer failed, or the value was complete and
   * closing the pipe failed.
   */
  method Consume(source: Pipe, sink: Sink, length: nat, checkMode: bool, rounds: nat, producer: Producer,
                 consumer: Consumer, checks: Checks)
    returns (unlocked: bool, raised: bool, secret: array?<Byte>, ghost log: seq<Step>, ghost waited: bool, ghost complete: bool)
    requires source.Valid() && source.position == 0 && sink.received == [] && !sink.broken && !sink.stalled
    modifies source, sink
    ensures source.Valid()
    ensures unlocked ==> !raised && !checkMode && sink.received == source.content && |source.content| == length
    ensures unlocked ==> log == BEFORE_DELIVERY + [Delivered] && Usable(sink.received) && consumer.code == 0
    ensures sink.received != [] ==> BEFORE_DELIVERY <= log && sink.received <= source.content
    ensures checkMode || raised ==> !unlocked
    ensures checkMode ==> log == [] && secret == null && raised == !checks.inspected
    ensures rounds > |source.content| && !checkMode ==>
              (unlocked <==>
                 && AllPass(checks) && Deliverable(producer, source.content, length) && !producer.closeFails
                 && consumer.starts && !sink.broken && !sink.stalled && consumer.ends && consumer.code == 0)
    ensures !checkMode ==> unlocked == !raised
    ensures complete ==> secret != null && waited && Deliverable(producer, source.content, length)
    ensures waited ==> producer.ends
    ensures secret != null ==>
              (Zero(secret[..]) <==>
                 && !(complete && producer.closeFails && length > 0)
                 && !(Escapes(producer, waited) && !Zero(source.content[..Kept(source.position, length)])))
  {
    unlocked, raised, secret, log, waited, complete := false, false, null, [], false, false;
    if !checks.inspected { raised := true; return; }
    if checkMode { return; }
    if !checks.claimed { raised := true; return; }
    log := [Claimed];
    if !checks.disabled { raised := true; return; }
    log := log + [CoreDumpsDisabled];
    var buffer;
    buffer, raised, waited, complete := ReadSecret(source, length, rounds, producer);
    secret := buffer;
    LeftOver(secret[..], source.content, Kept(source.position, length), producer, waited, complete);
    if raised { return; }
    log := log + [SecretRead];
    if !checks.password { raised := true; } else { log := log + [PasswordRevalidated]; }
    if !raised && !checks.key { raised := true; }
    if !raised {
      log := log + [KeyRevalidated];
      raised := RunConsumer(sink, buffer, consumer);
    }
    if !raised { log := log + [Delivered]; }
    Erase(buffer);
    unlocked := !raised;
  }

  lemma LeftOver(buffer: Bytes, content: Bytes, received: nat, producer: Producer, waited: bool, complete: bool)
    requires Leaves(buffer, content, received, producer, waited, complete) && received <= |content|
    requires complete ==> waited && Usable(content)
    ensures Zero(buffer) <==> if complete then buffer == [] else Escapes(producer, waited) ==> Zero(content[..received])
  {
    if complete {
      assert buffer != [] ==> buffer[0] != 0;
    } else if Escapes(producer, waited) {
      assert buffer == buffer[..received] + buffer[received..];
    }
  }

  /** One exception occurs: any usable value that is read in time stays in the buffer when its pipe does not close. */
  method CloseFailureKeepsSecret(content: Bytes) returns (secret: array<Byte>, raised: bool)
    requires content != [] && Usable(content)
    ensures raised && secret[..] == content && !Zero(secret[..])
  {
    var source := new Pipe(content);
    ghost var waited, complete;
    secret, raised, waited, complete := ReadSecret(source, |content|, |content| + 1, Producer(true, true, 0, false, false, true));
    assert secret[0] == content[0];
  }

  /** So does the other: what was received of a value that is too long stays there when its producer cannot be killed. */
  method KillFailureKeepsSecret(content: Bytes, length: nat) returns (secret: array<Byte>, raised: bool)
    requires length < |content| && !Zero(content[..length])
    ensures raised && secret[..] == content[..length] && !Zero(secret[..])
  {
    var source := new Pipe(content);
    ghost var waited, complete;
    secret, raised, waited, complete := ReadSecret(source, length, |content| + 1, Producer(true, false, 0, true, true, false));
    assert secret[..length] == secret[..];
  }
}
