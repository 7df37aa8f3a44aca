/** When an inspection returns what it found, field by field, and how calls that only look end. */

module ControllerLooks {
  import opened Outcomes
  import opened Text
  import opened Lists
  import opened Json
  import opened Package
  import opened Controllers

  // ------------------------------------------------------------- inspections

  /** A row of the vault with the title, or, where identities count, with the pinned one. */
  predicate Concerns(item: Item, where: Place, byId: bool) {
    && item.vault == where.vault
    && (item.title == where.title || (byId && where.itemId != [] && item.id == where.itemId))
  }

  predicate NoRow(items: seq<Item>, where: Place, byId: bool) {
    forall j :: 0 <= j < |items| ==> !Concerns(items[j], where, byId)
  }

  predicate OnlyRow(items: seq<Item>, where: Place, byId: bool, k: nat) {
    && k < |items| && Concerns(items[k], where, byId)
    && forall j :: 0 <= j < |items| && j != k ==> !Concerns(items[j], where, byId)
  }

  predicate TwoRows(items: seq<Item>, where: Place, byId: bool) {
    exists j, k :: 0 <= j < k < |items| && Concerns(items[j], where, byId) && Concerns(items[k], where, byId)
  }

  lemma NoRowExactly(items: seq<Item>, where: Place, byId: bool)
    ensures NoRow(items, where, byId) <==> Matches(items, where, byId, |items|) == []
  {
    var rows := Matches(items, where, byId, |items|);
    if rows != [] { assert Matching(items[rows[0]], where, byId); }
  }

  lemma OnlyRowMatches(items: seq<Item>, where: Place, byId: bool, k: nat)
    requires OnlyRow(items, where, byId, k)
    ensures Matches(items, where, byId, |items|) == [k]
  {
    var rows := Matches(items, where, byId, |items|);
    MatchesInOrder(items, where, byId, |items|);
    TwoDiffer(rows, k);
    assert k in rows;
    assert forall i :: 0 <= i < |rows| ==> rows[i] == k;
  }

  lemma TwoDiffer(rows: seq<nat>, k: nat)
    requires Increasing(rows)
    ensures |rows| > 1 ==> exists i :: 0 <= i < |rows| && rows[i] != k
  {
    if |rows| > 1 { assert rows[0] < rows[1]; }
  }

  lemma BothThere(rows: seq<nat>, j: nat, k: nat)
    requires j in rows && k in rows && j != k
    ensures |rows| > 1
  {
  }

  lemma TwoRowsMatch(items: seq<Item>, where: Place, byId: bool)
    requires TwoRows(items, where, byId)
    ensures |Matches(items, where, byId, |items|)| > 1
  {
    var j, k :| 0 <= j < k < |items| && Concerns(items[j], where, byId) && Concerns(items[k], where, byId);
    assert Matching(items[j], where, byId) && Matching(items[k], where, byId);
    BothThere(Matches(items, where, byId, |items|), j, k);
  }

  /** The row is the document of this checksum, and of the pinned identity and version when there is a pin. */
  predicate IsCustodyDocument(row: Item, where: Place, sha: Text) {
    && row.title == where.title && row.category == S("DOCUMENT") && SafeId(row.id) && row.versions != []
    && (row.tags == [S("luks-header-custody"), sha] || row.tags == [sha, S("luks-header-custody")])
    && (where.itemId != [] ==> row.id == where.itemId && |row.versions| == where.itemVersion)
  }

  lemma TwoTags(tags: seq<Text>, a: Text, b: Text)
    ensures multiset(tags) == multiset([a, b]) <==> tags == [a, b] || tags == [b, a]
  {
    if multiset(tags) == multiset([a, b]) {
      assert |tags| == |multiset(tags)| == 2;
      assert tags == [tags[0], tags[1]];
      assert multiset(tags) == multiset{tags[0], tags[1]} == multiset{a, b};
      assert tags[0] in multiset{a, b};
    }
  }

  /** An inspection of a native document: nothing without a row, the row if it is the document, drift otherwise. */
  lemma InspectDocumentExactly(items: seq<Item>, where: Place, sha: Text, k: nat)
    ensures NoRow(items, where, true) ==> InspectDocument(items, where, sha) == if where.itemId == [] then Nothing else Drift
    ensures OnlyRow(items, where, true, k) ==>
              InspectDocument(items, where, sha) ==
                if IsCustodyDocument(items[k], where, sha) then One(items[k].id, |items[k].versions|) else Drift
    ensures TwoRows(items, where, true) ==> InspectDocument(items, where, sha) == Drift
  {
    NoRowExactly(items, where, true);
    if OnlyRow(items, where, true, k) {
      OnlyRowMatches(items, where, true, k);
      TwoTags(items[k].tags, S("luks-header-custody"), sha);
    }
    if TwoRows(items, where, true) { TwoRowsMatch(items, where, true); }
  }

  /** The row is the item that a secret or key action asks for: with its tags. */
  predicate IsAskedFor(row: Item, action: Action)
    requires action.SecretItem? || action.KeyItem?
  {
    && SafeId(row.id) && row.versions != []
    && row.category == (if action.SecretItem? then action.category else S("SSH_KEY"))
    && (action.where.itemId != [] ==> row.id == action.where.itemId)
    && (action.where.itemVersion != 0 ==> |row.versions| == action.where.itemVersion)
    && TagsAskedFor(action, row.tags)
  }

  /** A secret's tags occur as often as asked for; a key's are asked for once each, however often they occur. */
  predicate TagsAskedFor(action: Action, tags: seq<Text>)
    requires action.SecretItem? || action.KeyItem?
  {
    if action.SecretItem? then multiset(tags) == multiset(action.tags)
    else Distinct(action.tags) && (forall tag :: tag in tags ==> tag in action.tags) && forall tag :: tag in action.tags ==> tag in tags
  }

  lemma TagsExactly(action: Action, tags: seq<Text>)
    requires action.SecretItem? || action.KeyItem?
    ensures SameTags(action, tags) <==> TagsAskedFor(action, tags)
  {
    if action.KeyItem? {
      var once := multiset(set tag | tag in tags);
      assert forall tag :: once[tag] == if tag in tags then 1 else 0;
      DistinctCounts(action.tags);
      assert forall tag :: tag in action.tags <==> multiset(action.tags)[tag] > 0;
      if SameTags(action, tags) {
        assert forall tag :: multiset(action.tags)[tag] == once[tag];
      }
    }
  }

  lemma InspectItemExactly(items: seq<Item>, action: Action, k: nat)
    requires action.SecretItem? || action.KeyItem?
    ensures NoRow(items, action.where, false) ==>
              InspectItem(items, action) == if action.where.itemId == [] then Nothing else Drift
    ensures OnlyRow(items, action.where, false, k) ==>
              InspectItem(items, action) ==
                if IsAskedFor(items[k], action) then One(items[k].id, |items[k].versions|) else Drift
    ensures TwoRows(items, action.where, false) ==> InspectItem(items, action) == Drift
  {
    NoRowExactly(items, action.where, false);
    if OnlyRow(items, action.where, false, k) {
      OnlyRowMatches(items, action.where, false, k);
      TagsExactly(action, items[k].tags);
    }
    if TwoRows(items, action.where, false) { TwoRowsMatch(items, action.where, false); }
  }

  // ---------------------------------------------------- calls that only look

  /** A call after this many of its own steps, in a world that stays as it is. */
  function Still(env: Env, id: nat, c: Call, w: World, pick: Pick, n: nat): Call {
    if n == 0 then c else CallStep(env, id, Still(env, id, c, w, pick, n - 1), w, pick).0
  }

  /** The current content of the item with this identity. */
  predicate Contains(items: seq<Item>, where: Place, identity: Text, raw: Bytes) {
    var k := Find(items, where.vault, identity, |items|);
    k < |items| && items[k].versions != [] && raw == items[k].versions[|items[k].versions| - 1]
  }

  /** What a native document call does without a document: it plans, fails, or goes on to create. */
  lemma NothingExactly(env: Env, id: nat, c: Call, w: World, pick: Pick)
    requires c.phase == Inspecting(false) && c.action.Document?
    requires InspectDocument(w.provider.items, c.action.where, env.hash(Canonical(c.action.package))).Nothing?
    ensures CallStep(env, id, c, w, pick).0 == c.(phase :=
              if c.action.operation.Plan? || (c.action.operation.Apply? && c.checkMode) then Done(Planned(false))
              else if c.action.operation.Apply? && c.action.allowCreate then Normalizing
              else Failed)
  {
  }

  /**
   * What an inspection for a secret or key item leads to: without a row a plan forecasts a creation, an application goes
   * on to claim, and a verification fails; with the item an application fails, and the others report it; with any
   * other rows the call fails.
   */
  lemma ItemsExactly(env: Env, id: nat, c: Call, w: World, pick: Pick, k: nat)
    requires c.phase.Inspecting? && (c.action.SecretItem? || c.action.KeyItem?)
    ensures var c', operation, where := CallStep(env, id, c, w, pick).0, c.action.operation, c.action.where;
            var items, looks := w.provider.items, operation.Plan? || (operation.Apply? && c.checkMode);
            && (NoRow(items, where, false) ==>
                  c' == c.(phase := if where.itemId != [] then Failed
                                    else if looks then Done(Planned(true))
                                    else if operation.Apply? then Claiming else Failed))
            && (OnlyRow(items, where, false, k) && IsAskedFor(items[k], c.action) ==>
                  c' == c.(phase := if operation.Apply? then Failed
                                    else if operation.Plan? then Done(Planned(false))
                                    else Done(Public(items[k].id, |items[k].versions|))))
            && (OnlyRow(items, where, false, k) && !IsAskedFor(items[k], c.action) ==> c' == c.(phase := Failed))
            && (TwoRows(items, where, false) ==> c' == c.(phase := Failed))
  {
    InspectItemExactly(w.provider.items, c.action, k);
    SeenItem(env, id, c, w, pick);
  }

  lemma SeenItem(env: Env, id: nat, c: Call, w: World, pick: Pick)
    requires c.phase.Inspecting? && (c.action.SecretItem? || c.action.KeyItem?)
    ensures CallStep(env, id, c, w, pick).0 == c.(phase := ItemInspected(c, InspectItem(w.provider.items, c.action)))
  {
  }

  /** Every required permission is granted. */
  predicate HoldsAll(p: Provider, action: Action)
    requires action.CoManager?
  {
    forall i :: 0 <= i < |action.required| ==> action.required[i] in Granted(p, action.vault, action.user)
  }

  /** What an inspection of permissions leads to: a forecast, a satisfied call, a second look, or a claim. */
  lemma GrantsExactly(env: Env, id: nat, c: Call, w: World, pick: Pick)
    requires c.phase.Inspecting? && c.action.CoManager?
    ensures var c', holds := CallStep(env, id, c, w, pick).0, HoldsAll(w.provider, c.action);
            if !c.phase.again && (c.action.operation != Apply || c.checkMode) then c' == c.(phase := Done(Planned(!holds)))
            else if holds then c' == c.(phase := Done(Satisfied([])))
            else c' == c.(phase := if c.phase.again then Claiming else Inspecting(true))
  {
    NoneMissing(w.provider, c.action);
  }

  lemma NoneMissing(p: Provider, action: Action)
    requires action.CoManager?
    ensures HoldsAll(p, action) <==> Missing(action.required, Granted(p, action.vault, action.user)) == []
  {
    var missing := Missing(action.required, Granted(p, action.vault, action.user));
    if missing != [] { assert missing[0] in missing; }
    if !HoldsAll(p, action) {
      var i :| 0 <= i < |action.required| && action.required[i] !in Granted(p, action.vault, action.user);
      assert action.required[i] in missing;
    }
  }

  /** Drift ends every native call. */
  lemma DriftFails(env: Env, id: nat, c: Call, w: World, pick: Pick)
    requires c.phase == Inspecting(false) && (c.action.Document? || c.action.Retrieval?)
    requires InspectDocument(w.provider.items, c.action.where, Checksum(env, c.action)).Drift?
    ensures CallStep(env, id, c, w, pick).0 == c.(phase := Failed)
  {
  }

  lemma {:induction false} ThreeSteps(env: Env, id: nat, c: Call, w: World, pick: Pick, c1: Call, c2: Call, c3: Call)
    requires CallStep(env, id, c, w, pick).0 == c1 && CallStep(env, id, c1, w, pick).0 == c2
    requires CallStep(env, id, c2, w, pick).0 == c3
    ensures Still(env, id, c, w, pick, 3) == c3
  {
    assert Still(env, id, c, w, pick, 0) == c && Still(env, id, c, w, pick, 1) == c1 && Still(env, id, c, w, pick, 2) == c2;
  }

  lemma FailedStays(env: Env, id: nat, c: Call, w: World, pick: Pick)
    requires c.phase.Failed?
    ensures CallStep(env, id, c, w, pick).0 == c
  {
  }

  /** The checksum that a native call inspects for. */
  function Checksum(env: Env, action: Action): Text
    requires action.Document? || action.Retrieval?
  {
    if action.Document? then env.hash(Canonical(action.package)) else action.pins.packageSha256
  }

  lemma SeesItem(env: Env, id: nat, c: Call, w: World, pick: Pick, identity: Text, version: nat)
    requires c.phase == Inspecting(false) && (c.action.Document? || c.action.Retrieval?)
    requires InspectDocument(w.provider.items, c.action.where, Checksum(env, c.action)) == One(identity, version)
    ensures CallStep(env, id, c, w, pick).0 == c.(phase := Downloading(identity, version))
  {
  }

  lemma {:induction false} DownloadsContent(env: Env, id: nat, c: Call, w: World, pick: Pick, raw: Bytes)
    requires c.phase.Downloading? && (c.action.Document? || c.action.Retrieval?)
    requires Contains(w.provider.items, c.action.where, c.phase.id, raw)
    ensures CallStep(env, id, c, w, pick).0 == c.(phase :=
              if Accepted(env, c.action, raw).Ok? then Rechecking(c.phase.id, c.phase.version, raw) else Failed)
  {
    DownloadedIs(env, c, w.provider, raw);
    assert CallStep(env, id, c, w, pick).0 == c.(phase := Downloaded(env, c, w.provider));
  }

  lemma {:induction false} DownloadedIs(env: Env, c: Call, p: Provider, raw: Bytes)
    requires c.phase.Downloading? && (c.action.Document? || c.action.Retrieval?) && Contains(p.items, c.action.where, c.phase.id, raw)
    ensures Downloaded(env, c, p) ==
            if Accepted(env, c.action, raw).Ok? then Rechecking(c.phase.id, c.phase.version, raw) else Failed
  {
    var k := Find(p.items, c.action.where.vault, c.phase.id, |p.items|);
    assert raw == p.items[k].versions[|p.items[k].versions| - 1];
    if Accepted(env, c.action, raw).Raised? {
      assert Downloaded(env, c, p) == Failed;
    } else {
      assert Downloaded(env, c, p) == Rechecking(c.phase.id, c.phase.version, raw);
    }
  }

  lemma {:induction false} RechecksDocument(env: Env, c: Call, p: Provider)
    requires c.phase.Rechecking? && c.action.Document?
    requires InspectDocument(p.items, c.action.where, env.hash(Canonical(c.action.package))) == One(c.phase.id, c.phase.version)
    ensures Rechecked(env, c, p) == Done(InCustody(c.acted, c.phase.id, c.phase.version))
  {
  }

  lemma {:induction false} RechecksRetrieval(env: Env, c: Call, p: Provider, package: Json)
    requires c.phase.Rechecking? && c.action.Retrieval?
    requires InspectDocument(p.items, c.action.where, c.action.pins.packageSha256) == One(c.phase.id, c.phase.version)
    requires Accepted(env, c.action, c.phase.raw) == Ok(package)
    ensures Rechecked(env, c, p) == Done(Retrieved(c.phase.id, c.phase.version, package))
  {
  }

  lemma {:induction false} RechecksAs(env: Env, id: nat, c: Call, w: World, pick: Pick)
    requires c.phase.Rechecking?
    ensures CallStep(env, id, c, w, pick).0 == c.(phase := Rechecked(env, c, w.provider))
  {
  }

  /** What a native call that accepted this reports. */
  function Receipt(c: Call, identity: Text, version: nat, package: Json): Report {
    if c.action.Document? then InCustody(c.acted, identity, version) else Retrieved(identity, version, package)
  }

  lemma {:induction false} RechecksItem(env: Env, id: nat, c: Call, w: World, pick: Pick, package: Json)
    requires c.phase.Rechecking? && (c.action.Document? || c.action.Retrieval?)
    requires InspectDocument(w.provider.items, c.action.where, Checksum(env, c.action)) == One(c.phase.id, c.phase.version)
    requires Accepted(env, c.action, c.phase.raw) == Ok(package)
    ensures CallStep(env, id, c, w, pick).0 == c.(phase := Done(Receipt(c, c.phase.id, c.phase.version, package)))
  {
    RechecksAs(env, id, c, w, pick);
    if c.action.Document? { RechecksDocument(env, c, w.provider); } else { RechecksRetrieval(env, c, w.provider, package); }
  }

  lemma LooksThrough(env: Env, id: nat, c: Call, w: World, pick: Pick, identity: Text, version: nat, raw: Bytes)
    requires c.phase == Inspecting(false) && (c.action.Document? || c.action.Retrieval?)
    requires InspectDocument(w.provider.items, c.action.where, Checksum(env, c.action)) == One(identity, version)
    requires Contains(w.provider.items, c.action.where, identity, raw)
    ensures Still(env, id, c, w, pick, 3) == c.(phase :=
              match Accepted(env, c.action, raw)
              case Raised => Failed
              case Ok(package) => Done(Receipt(c, identity, version, package)))
  {
    var c1 := c.(phase := Downloading(identity, version));
    SeesItem(env, id, c, w, pick, identity, version);
    DownloadsContent(env, id, c1, w, pick, raw);
    match Accepted(env, c.action, raw)
    case Ok(package) =>
      var c2 := c.(phase := Rechecking(identity, version, raw));
      RechecksItem(env, id, c2, w, pick, package);
      ThreeSteps(env, id, c, w, pick, c1, c2, c.(phase := Done(Receipt(c, identity, version, package))));
    case Raised =>
      var c2 := c.(phase := Failed);
      FailedStays(env, id, c2, w, pick);
      ThreeSteps(env, id, c, w, pick, c1, c2, c2);
  }

  /**
   * A document that is there: after three steps every native document call, of any operation, reports it in custody, not
   * created, if and only if its content is the package's canonical bytes; otherwise it has failed.
   */
  lemma CustodyExactly(env: Env, id: nat, c: Call, w: World, pick: Pick, identity: Text, version: nat, raw: Bytes)
    requires c.phase == Inspecting(false) && c.action.Document? && !c.acted && ValidPackage(env.hash, c.action.package)
    requires InspectDocument(w.provider.items, c.action.where, Checksum(env, c.action)) == One(identity, version)
    requires Contains(w.provider.items, c.action.where, identity, raw)
    ensures Still(env, id, c, w, pick, 3).phase ==
            if raw == Canonical(c.action.package) then Done(InCustody(false, identity, version)) else Failed
  {
    LooksThrough(env, id, c, w, pick, identity, version, raw);
    OnlyItsBytes(env.hash, c.action.package, raw);
  }

  lemma OnlyItsBytes(hash: Digest, package: Json, raw: Bytes)
    requires ValidPackage(hash, package)
    ensures DecodePackage(hash, raw, Canonical(package)).Ok? <==> raw == Canonical(package)
  {
    DecodesExactly(hash, raw, Canonical(package));
  }

  /** A retrieval, in the same way: exactly when the content is the package that its pins name. */
  lemma RetrievalExactly(env: Env, id: nat, c: Call, w: World, pick: Pick, identity: Text, version: nat, raw: Bytes)
    requires c.phase == Inspecting(false) && c.action.Retrieval?
    requires InspectDocument(w.provider.items, c.action.where, Checksum(env, c.action)) == One(identity, version)
    requires Contains(w.provider.items, c.action.where, identity, raw)
    ensures Still(env, id, c, w, pick, 3).phase ==
            match VerifyDownload(env.hash, raw, c.action.pins)
            case Ok(package) => Done(Retrieved(identity, version, package))
            case Raised => Failed
  {
    LooksThrough(env, id, c, w, pick, identity, version, raw);
  }
}
