/** How the first look of a call ends: with the document, its absence, another attempt, or a refusal. */

module DocumentStoreReads {
  import opened Outcomes
  import opened Text
  import opened Documents
  import opened DocumentStore
  import opened DocumentStoreRuns
  import opened DocumentStoreProgress

  // ---------------------------------------------------------- single looks

  /** The document has one more name: a winner that has not removed its staging name. */
  ghost predicate Doubled(disk: Disk) {
    Target in disk.entries && exists token :: Named(disk, Temp(token), disk.entries[Target])
  }

  predicate OnlyTarget(disk: Disk) {
    Target in disk.entries && forall n :: n in disk.entries && disk.entries[n] == disk.entries[Target] ==> n == Target
  }

  lemma OneName(disk: Disk)
    requires Target in disk.entries
    ensures OnlyTarget(disk) <==> HardLinks(disk, disk.entries[Target]) == 1
    ensures OnlyTarget(disk) <==> !Doubled(disk)
  {
    var names := Names(disk, disk.entries[Target]);
    assert Target in names;
    if OnlyTarget(disk) { assert names == {Target}; }
    if |names| == 1 {
      assert |names - {Target}| == 0;
      assert names == {Target};
    }
    if n :| n in disk.entries && disk.entries[n] == disk.entries[Target] && n != Target {
      assert n in names && n.Temp?;
      assert Named(disk, Temp(n.token), disk.entries[Target]);
    }
  }

  /** What the first look leads to, by what is there. */
  lemma FirstLookExactly(decode: Codec, s: System, id: nat, pick: Pick)
    requires id in s.calls && s.calls[id].phase == Reading(First, StatPath)
    ensures var c, s' := s.calls[id], After(decode, s, Step(id, pick));
            && s'.disk == s.disk
            && s'.calls[id] == c.(phase :=
                 if Target !in s.disk.entries then
                   (if c.checkMode then Done(false, false, []) else if Prepared(decode, c) then Open(0) else Failed)
                 else if Doubled(s.disk) then Reading(Race(0), StatPath)
                 else if |Published(s)| > c.limit then Failed
                 else Reading(First, OpenPath(s.disk.entries[Target])))
  {
    if Target in s.disk.entries { OneName(s.disk); }
  }

  /** A loser's look: with the winner still cleaning up, or without a document, it tries again, a hundred times at most. */
  lemma RaceLookExactly(decode: Codec, s: System, id: nat, pick: Pick)
    requires id in s.calls && s.calls[id].phase.Reading? && s.calls[id].phase.purpose.Race? && s.calls[id].phase.step == StatPath
    ensures var c, s' := s.calls[id], After(decode, s, Step(id, pick));
            var attempt := c.phase.purpose.attempt;
            && s'.disk == s.disk
            && s'.calls[id] == c.(phase :=
                 if Target in s.disk.entries && !Doubled(s.disk) && |Published(s)| <= c.limit
                 then Reading(Race(attempt), OpenPath(s.disk.entries[Target]))
                 else if attempt < 99 then Reading(Race(attempt + 1), StatPath) else Failed)
  {
    if Target in s.disk.entries { OneName(s.disk); }
  }

  // ----------------------------------------------------- whole first readings

  /** The call reads a document that it will refuse. */
  predicate ReadsInVain(decode: Codec, s: System, c: Call) {
    && c.phase.Reading? && c.phase.purpose.First?
    && (c.phase.step.StatPathAgain? ==> c.phase.step.links == 1)
    && !(|Published(s)| <= c.limit && Accepts(decode, c.request, Published(s)))
  }

  lemma VainOn(decode: Codec, s: System, id: nat, pick: Pick)
    requires Invariant(decode, s) && Settled(s) && id in s.calls && ReadsInVain(decode, s, s.calls[id])
    ensures var c, c' := s.calls[id], After(decode, s, Step(id, pick)).calls[id];
            if c'.phase.Reading?
            then ReadsInVain(decode, s, c') && Left(|Published(s)|, c'.phase.step) < Left(|Published(s)|, c.phase.step)
            else c'.phase.Failed?
  {
    var c := s.calls[id];
    assert CallInvariant(decode, s.disk, c);
    if c.phase.step.Chunks? {
      var content, read := Content(s.disk, c.phase.step.file), c.phase.step.read;
      assert content == read + content[|read|..];
    }
  }

  lemma {:induction false} VainReads(decode: Codec, s: System, events: seq<Event>, id: nat)
    requires Invariant(decode, s) && Settled(s) && id in s.calls && ReadsInVain(decode, s, s.calls[id])
    requires forall i :: 0 <= i < |events| ==> Undisturbed(events[i], id)
    ensures var s' := Run(decode, s, events);
            && Settled(s') && Published(s') == Published(s) && id in s'.calls
            && var c, c' := s.calls[id], s'.calls[id];
               if c'.phase.Reading?
               then ReadsInVain(decode, s', c')
                    && Left(|Published(s)|, c'.phase.step) + StepsOf(events, id) <= Left(|Published(s)|, c.phase.step)
               else c'.phase.Failed?
    decreases |events|
  {
    if events != [] {
      var before, e := events[..|events| - 1], events[|events| - 1];
      VainReads(decode, s, before, id);
      RunKeepsInvariant(decode, s, before);
      var m := Run(decode, s, before);
      SettledStays(decode, m, e);
      if e.id != id {
        OthersLeaveAlone(decode, m, e, id);
      } else if e.Step? && m.calls[id].phase.Reading? {
        VainOn(decode, m, id, e.pick);
      }
    }
  }

  /**
   * A call that begins when the document has its one name: it returns the document, not created, if it is within the
   * limit and accepted, and fails otherwise, after at most the document's size and six system calls.
   */
  lemma LateCallExactly(decode: Codec, events: seq<Event>, more: seq<Event>, id: nat)
    requires var s := Run(decode, EMPTY, events);
             && Settled(s) && id in s.calls && s.calls[id].phase == Reading(First, StatPath)
             && StepsOf(more, id) >= |Published(s)| + 6
    requires forall i :: 0 <= i < |more| ==> Undisturbed(more[i], id)
    ensures var s := Run(decode, EMPTY, events);
            var c := s.calls[id];
            && id in Run(decode, s, more).calls
            && Run(decode, s, more).calls[id].phase ==
                 if |Published(s)| <= c.limit && Accepts(decode, c.request, Published(s)) then Done(false, true, Published(s))
                 else Failed
  {
    var s := Run(decode, EMPTY, events);
    Reachable(decode, events);
    if |Published(s)| <= s.calls[id].limit && Accepts(decode, s.calls[id].request, Published(s)) {
      LateCallReturns(decode, events, more, id);
    } else {
      VainReads(decode, s, more, id);
    }
  }

  // --------------------------------------------------- documents of a schema

  /** The document with this version, subject and secret. */
  function SchemaDocument(subject: Text, version: int, secretField: Text, secret: Text): Doc {
    MapDoc(map[S("schema_version") := IntDoc(version), S("subject") := StringDoc(subject), secretField := StringDoc(secret)])
  }

  predicate OneLine(t: Text) { forall i :: 0 <= i < |t| ==> t[i] != '\r' as int && t[i] != '\n' as int }

  /** Those of a schema are the documents with a secret of the right length and without line breaks; nothing else is in them. */
  lemma SchemaExactly(subject: Text, version: int, secretField: Text, secretLength: nat, d: Doc)
    requires secretField != S("schema_version") && secretField != S("subject")
    ensures Matches(Schema(subject, version, secretField, secretLength), d) <==>
            exists secret :: d == SchemaDocument(subject, version, secretField, secret) && |secret| == secretLength && OneLine(secret)
  {
    assert S("schema_version")[1] == 99 && S("subject")[1] == 117;
    if Matches(Schema(subject, version, secretField, secretLength), d) {
      var secret := d.fields[secretField].s;
      assert d.fields == SchemaDocument(subject, version, secretField, secret).fields;
      assert OneLine(secret);
    }
  }
}
