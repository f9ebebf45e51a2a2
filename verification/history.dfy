/**
 The daemon's observed-change history: container inventories with fail-closed identities, the bounded event
 log derived from successive publications, and what every reachable history satisfies.
 */
module History {
  import opened Prelude
  import opened Sorting
  import opened RuntimeModel
  import opened Identity
  import opened HistoryWire
  import Decimal

  // ---------------------------------------------------------------- inventories

  /** One published container: its raw identifier, which only ever appears hashed, and its status class. */
  datatype ContainerRecord = ContainerRecord(id: string, status: ContainerStatus)

  /** Containers whose public identity is unique, and the identities shared by several. */
  datatype Inventory = Inventory(containers: map<string, ContainerStatus>, ambiguous: set<string>)

  function PublicIdentity(digest: string -> HexDigest, record: ContainerRecord): string {
    CONTAINER_PREFIX + digest(record.id)
  }

  /** The records behind one public identity. */
  function Sharing(records: seq<ContainerRecord>, digest: string -> HexDigest, id: string): seq<ContainerRecord> {
    Filter(records, (record: ContainerRecord) => PublicIdentity(digest, record) == id)
  }

  ghost predicate IsInventory(inventory: Inventory, records: seq<ContainerRecord>, digest: string -> HexDigest) {
    forall id :: IdentityIs(inventory, records, digest, id)
  }

  /** One record makes an identity a container with that record's status; several make it ambiguous. */
  ghost predicate IdentityIs(inventory: Inventory, records: seq<ContainerRecord>, digest: string -> HexDigest,
                             id: string)
  {
    var sharing := Sharing(records, digest, id);
    && (id in inventory.containers <==> |sharing| == 1)
    && (id in inventory.ambiguous <==> |sharing| > 1)
    && (|sharing| == 1 ==> inventory.containers[id] == sharing[0].status)
  }

  /** The records grouped by public identity. */
  ghost predicate Grouped(candidates: map<string, seq<ContainerRecord>>, records: seq<ContainerRecord>,
                          digest: string -> HexDigest)
  {
    forall id :: GroupIs(candidates, records, digest, id)
  }

  ghost predicate GroupIs(candidates: map<string, seq<ContainerRecord>>, records: seq<ContainerRecord>,
                          digest: string -> HexDigest, id: string)
  {
    && (id in candidates <==> Sharing(records, digest, id) != [])
    && (id in candidates ==> candidates[id] == Sharing(records, digest, id) && ContainerId(id))
  }

  lemma SharingGrows(records: seq<ContainerRecord>, k: nat, digest: string -> HexDigest, id: string)
    requires k < |records|
    ensures Sharing(records[..k + 1], digest, id)
            == Sharing(records[..k], digest, id) + (if PublicIdentity(digest, records[k]) == id then [records[k]] else [])
  {
    assert records[..k + 1] == records[..k] + [records[k]];
    FilterAppend(records[..k], records[k], (r: ContainerRecord) => PublicIdentity(digest, r) == id);
  }

  method GroupByIdentity(records: seq<ContainerRecord>, digest: string -> HexDigest)
    returns (candidates: map<string, seq<ContainerRecord>>)
    ensures Grouped(candidates, records, digest)
  {
    candidates := map[];
    for k := 0 to |records|
      invariant Grouped(candidates, records[..k], digest)
    {
      var id := PublicIdentity(digest, records[k]);
      assert id[|CONTAINER_PREFIX|..] == digest(records[k].id);
      var upTo := records[..k + 1];
      var grown := candidates[id := (if id in candidates then candidates[id] else []) + [records[k]]];
      forall other: string ensures GroupIs(grown, upTo, digest, other) {
        assert GroupIs(candidates, records[..k], digest, other);
        SharingGrows(records, k, digest, other);
      }
      candidates := grown;
    }
    assert records[..|records|] == records;
  }

  /** Of these identities, the groups of one are containers and the others are ambiguous. */
  ghost predicate SelectedAt(inventory: Inventory, candidates: map<string, seq<ContainerRecord>>, done: set<string>, id: string)
    requires done <= candidates.Keys
  {
    && (id in inventory.containers <==> id in done && |candidates[id]| == 1)
    && (id in inventory.containers ==> inventory.containers[id] == candidates[id][0].status)
    && (id in inventory.ambiguous <==> id in done && |candidates[id]| != 1)
  }

  function SelectOne(inventory: Inventory, candidates: map<string, seq<ContainerRecord>>, id: string): Inventory
    requires id in candidates
  {
    if |candidates[id]| == 1 then inventory.(containers := inventory.containers[id := candidates[id][0].status])
    else inventory.(ambiguous := inventory.ambiguous + {id})
  }

  lemma SelectOneMore(inventory: Inventory, candidates: map<string, seq<ContainerRecord>>, done: set<string>, id: string)
    requires done <= candidates.Keys && id in candidates
    requires forall other :: SelectedAt(inventory, candidates, done, other)
    ensures forall other :: SelectedAt(SelectOne(inventory, candidates, id), candidates, done + {id}, other)
  {
    forall other: string ensures SelectedAt(SelectOne(inventory, candidates, id), candidates, done + {id}, other) {
      assert SelectedAt(inventory, candidates, done, other);
    }
  }

  /** Group the records by public identity, then keep the groups of one and name the others ambiguous. */
  method ObservedContainerInventory(records: seq<ContainerRecord>, digest: string -> HexDigest)
    returns (inventory: Inventory)
    ensures IsInventory(inventory, records, digest)
    ensures WellFormed(inventory)
  {
    var candidates := GroupByIdentity(records, digest);
    inventory := SelectGroups(candidates);
    SelectionIsInventory(candidates, inventory, records, digest);
  }

  method SelectGroups(candidates: map<string, seq<ContainerRecord>>) returns (inventory: Inventory)
    ensures forall id :: SelectedAt(inventory, candidates, candidates.Keys, id)
  {
    var keys := SortedKeys(candidates.Keys);
    ghost var done: set<string> := {};
    inventory := Inventory(map[], {});
    for k := 0 to |keys|
      invariant done == set id | id in keys[..k]
      invariant done <= candidates.Keys
      invariant forall id :: SelectedAt(inventory, candidates, done, id)
    {
      assert keys[..k + 1] == keys[..k] + [keys[k]];
      assert keys[k] in candidates.Keys;
      SelectOneMore(inventory, candidates, done, keys[k]);
      ghost var next := SelectOne(inventory, candidates, keys[k]);
      if |candidates[keys[k]]| == 1 {
        inventory := inventory.(containers := inventory.containers[keys[k] := candidates[keys[k]][0].status]);
      } else {
        inventory := inventory.(ambiguous := inventory.ambiguous + {keys[k]});
      }
      assert inventory == next;
      done := done + {keys[k]};
    }
    assert keys[..|keys|] == keys;
    assert done == candidates.Keys;
  }

  lemma SelectionIsInventory(candidates: map<string, seq<ContainerRecord>>, inventory: Inventory,
                             records: seq<ContainerRecord>, digest: string -> HexDigest)
    requires Grouped(candidates, records, digest)
    requires forall id :: SelectedAt(inventory, candidates, candidates.Keys, id)
    ensures IsInventory(inventory, records, digest) && WellFormed(inventory)
  {
    forall id
      ensures IdentityIs(inventory, records, digest, id)
      ensures id in inventory.containers ==> ContainerId(id)
    {
      assert GroupIs(candidates, records, digest, id);
      assert SelectedAt(inventory, candidates, candidates.Keys, id);
    }
  }

  /** One multiset of records has one inventory, whatever the order Docker listed them in. */
  lemma InventoryIsCanonical(a: seq<ContainerRecord>, b: seq<ContainerRecord>, digest: string -> HexDigest,
                             x: Inventory, y: Inventory)
    requires multiset(a) == multiset(b) && IsInventory(x, a, digest) && IsInventory(y, b, digest)
    ensures x == y
  {
    forall id
      ensures id in x.containers <==> id in y.containers
      ensures id in x.ambiguous <==> id in y.ambiguous
      ensures id in x.containers && id in y.containers ==> x.containers[id] == y.containers[id]
    {
      assert IdentityIs(x, a, digest, id) && IdentityIs(y, b, digest, id);
      FilterMultiset(a, b, (record: ContainerRecord) => PublicIdentity(digest, record) == id);
      SameSingleton(Sharing(a, digest, id), Sharing(b, digest, id));
    }
    assert x.ambiguous == y.ambiguous;
    assert x.containers == y.containers;
  }

  predicate Named(records: seq<ContainerRecord>, digest: string -> HexDigest, id: string, k: nat) {
    k < |records| && "docker_container_" + digest(records[k].id) == id
  }

  /** The one record of this name has this status. */
  ghost predicate OnlyAt(records: seq<ContainerRecord>, digest: string -> HexDigest, id: string, status: ContainerStatus, k: nat) {
    Named(records, digest, id, k) && records[k].status == status && forall j :: Named(records, digest, id, j) ==> j == k
  }

  /** An identity is a container exactly when one record has it, with that status, and ambiguous exactly when two do. */
  lemma InventoryExactly(inventory: Inventory, records: seq<ContainerRecord>, digest: string -> HexDigest, id: string,
                         status: ContainerStatus)
    requires IsInventory(inventory, records, digest)
    ensures id in inventory.containers && inventory.containers[id] == status
            <==> exists k :: OnlyAt(records, digest, id, status, k)
    ensures id in inventory.ambiguous
            <==> exists j, k :: j != k && Named(records, digest, id, j) && Named(records, digest, id, k)
  {
    var p := (record: ContainerRecord) => PublicIdentity(digest, record) == id;
    var sharing := Sharing(records, digest, id);
    assert IdentityIs(inventory, records, digest, id);
    if |sharing| == 1 {
      OneFiltered(records, p, sharing[0]);
      var k: nat :| OneAt(records, p, sharing[0], k);
      assert OnlyAt(records, digest, id, sharing[0].status, k);
    } else if |sharing| > 1 {
      var j, k := FindTwo(records, p);
      assert Named(records, digest, id, j) && Named(records, digest, id, k);
    } else {
      OneFiltered(records, p, ContainerRecord("", status));
      assert forall k :: !Named(records, digest, id, k);
    }
  }

  predicate WellFormed(inventory: Inventory) {
    && inventory.containers.Keys !! inventory.ambiguous
    && forall id :: id in inventory.containers ==> ContainerId(id)
  }

  // ---------------------------------------------------------------- the changes between two inventories

  function Lookup(m: map<string, ContainerStatus>, id: string): Option<ContainerStatus> {
    if id in m then Some(m[id]) else None
  }

  predicate Departed(previous: Inventory, current: Inventory, id: string) {
    id in previous.containers && id !in current.containers && id !in current.ambiguous
  }

  predicate Arrived(previous: Inventory, current: Inventory, id: string) {
    id in current.containers && id !in previous.containers && id !in previous.ambiguous
  }

  predicate Altered(previous: Inventory, current: Inventory, id: string) {
    id in previous.containers && id in current.containers && previous.containers[id] != current.containers[id]
  }

  /** The changes the two loops push for a list of keys of the previous, and of the current, inventory. */
  function Departures(keys: seq<string>, previous: Inventory, current: Inventory): seq<Change> {
    if keys == [] then []
    else
      var id := keys[|keys| - 1];
      Departures(keys[..|keys| - 1], previous, current)
      + (if Departed(previous, current, id)
         then [Change(ContainerDisappeared, id, Some(previous.containers[id]), None)] else [])
  }

  /** What the second loop pushes for one key. */
  function ArrivalChange(previous: Inventory, current: Inventory, id: string): Option<Change> {
    if Arrived(previous, current, id) then Some(Change(ContainerAppeared, id, None, Some(current.containers[id])))
    else if Altered(previous, current, id) then
      Some(Change(ContainerStatusChanged, id, Some(previous.containers[id]), Some(current.containers[id])))
    else None
  }

  function Arrivals(keys: seq<string>, previous: Inventory, current: Inventory): seq<Change> {
    if keys == [] then []
    else
      var change := ArrivalChange(previous, current, keys[|keys| - 1]);
      Arrivals(keys[..|keys| - 1], previous, current) + (if change.Some? then [change.value] else [])
  }

  function Changes(previous: Inventory, current: Inventory): seq<Change> {
    Departures(SortedKeys(previous.containers.Keys), previous, current)
    + Arrivals(SortedKeys(current.containers.Keys), previous, current)
  }

  /** Replaying changes over a container map. */
  function Apply(m: map<string, ContainerStatus>, change: Change): map<string, ContainerStatus> {
    match change.current
    case Some(status) => m[change.containerId := status]
    case None => m - {change.containerId}
  }

  function Replay(m: map<string, ContainerStatus>, changes: seq<Change>): map<string, ContainerStatus> {
    if changes == [] then m else Apply(Replay(m, changes[..|changes| - 1]), changes[|changes| - 1])
  }

  lemma {:induction false} ReplayConcat(m: map<string, ContainerStatus>, a: seq<Change>, b: seq<Change>)
    ensures Replay(m, a + b) == Replay(Replay(m, a), b)
    decreases |b|
  {
    if b == [] {
      assert a + b == a;
    } else {
      assert (a + b)[..|a + b| - 1] == a + b[..|b| - 1];
      ReplayConcat(m, a, b[..|b| - 1]);
    }
  }

  lemma ReplayOneMore(m: map<string, ContainerStatus>, done: seq<Change>, change: Change)
    ensures Replay(m, done + [change]) == Apply(Replay(m, done), change)
  {
    assert (done + [change])[..|done|] == done;
  }

  lemma LastDeparture(keys: seq<string>, front: seq<string>, id: string, previous: Inventory, current: Inventory,
                      done: seq<Change>)
    requires keys == front + [id] && done == Departures(front, previous, current)
    ensures Departures(keys, previous, current)
            == if Departed(previous, current, id)
               then done + [Change(ContainerDisappeared, id, Some(previous.containers[id]), None)] else done
  {
    assert keys[..|keys| - 1] == front;
  }

  lemma LastArrival(keys: seq<string>, front: seq<string>, id: string, previous: Inventory, current: Inventory,
                    done: seq<Change>)
    requires keys == front + [id] && done == Arrivals(front, previous, current)
    ensures var change := ArrivalChange(previous, current, id);
            Arrivals(keys, previous, current) == if change.Some? then done + [change.value] else done
  {
    assert keys[..|keys| - 1] == front;
  }

  lemma {:induction false} ReplayDepartures(m: map<string, ContainerStatus>, keys: seq<string>, previous: Inventory,
                                            current: Inventory, id: string)
    ensures Lookup(Replay(m, Departures(keys, previous, current)), id)
            == if id in keys && Departed(previous, current, id) then None else Lookup(m, id)
  {
    if keys != [] {
      var front, last := keys[..|keys| - 1], keys[|keys| - 1];
      var done := Departures(front, previous, current);
      assert keys == front + [last];
      ReplayDepartures(m, front, previous, current, id);
      LastDeparture(keys, front, last, previous, current, done);
      if Departed(previous, current, last) {
        ReplayOneMore(m, done, Change(ContainerDisappeared, last, Some(previous.containers[last]), None));
      }
    }
  }

  lemma {:induction false} ReplayArrivals(m: map<string, ContainerStatus>, keys: seq<string>, previous: Inventory,
                                          current: Inventory, id: string)
    ensures Lookup(Replay(m, Arrivals(keys, previous, current)), id)
            == if id in keys && (Arrived(previous, current, id) || Altered(previous, current, id))
               then Lookup(current.containers, id) else Lookup(m, id)
  {
    if keys != [] {
      var front, last := keys[..|keys| - 1], keys[|keys| - 1];
      var done, change := Arrivals(front, previous, current), ArrivalChange(previous, current, last);
      assert keys == front + [last];
      ReplayArrivals(m, front, previous, current, id);
      LastArrival(keys, front, last, previous, current, done);
      if change.Some? {
        ReplayOneMore(m, done, change.value);
      }
    }
  }

  /**
   Replaying a step's changes over any map that agrees with the previous inventory at an identity yields the
   current inventory there, exactly when that identity did not turn from unique to ambiguous or back.
   */
  lemma StepReplaysExactly(m: map<string, ContainerStatus>, previous: Inventory, current: Inventory, id: string)
    requires WellFormed(previous) && WellFormed(current)
    requires Lookup(m, id) == Lookup(previous.containers, id)
    ensures Lookup(Replay(m, Changes(previous, current)), id) == Lookup(current.containers, id)
            <==> && !(id in previous.containers && id in current.ambiguous)
                 && !(id in previous.ambiguous && id in current.containers)
  {
    var departures := Departures(SortedKeys(previous.containers.Keys), previous, current);
    var arrivals := Arrivals(SortedKeys(current.containers.Keys), previous, current);
    ReplayConcat(m, departures, arrivals);
    ReplayDepartures(m, SortedKeys(previous.containers.Keys), previous, current, id);
    ReplayArrivals(Replay(m, departures), SortedKeys(current.containers.Keys), previous, current, id);
  }

  /** What every change of a step says: a coherent transition of one identity that is ambiguous on neither side. */
  predicate TrueChange(previous: Inventory, current: Inventory, change: Change) {
    && ContainerId(change.containerId)
    && CoherentTransition(change)
    && change.containerId !in previous.ambiguous && change.containerId !in current.ambiguous
    && change.previous == Lookup(previous.containers, change.containerId)
    && change.current == Lookup(current.containers, change.containerId)
  }

  lemma {:induction false} DeparturesAreTrue(keys: seq<string>, previous: Inventory, current: Inventory, change: Change)
    requires WellFormed(previous) && WellFormed(current) && change in Departures(keys, previous, current)
    ensures TrueChange(previous, current, change)
  {
    if change in Departures(keys[..|keys| - 1], previous, current) {
      DeparturesAreTrue(keys[..|keys| - 1], previous, current, change);
    }
  }

  lemma {:induction false} ArrivalsAreTrue(keys: seq<string>, previous: Inventory, current: Inventory, change: Change)
    requires WellFormed(previous) && WellFormed(current) && change in Arrivals(keys, previous, current)
    ensures TrueChange(previous, current, change)
  {
    if change in Arrivals(keys[..|keys| - 1], previous, current) {
      ArrivalsAreTrue(keys[..|keys| - 1], previous, current, change);
    }
  }

  /** No event names an ambiguous identity, and none misstates either side. */
  lemma ChangesAreTrue(previous: Inventory, current: Inventory, change: Change)
    requires WellFormed(previous) && WellFormed(current) && change in Changes(previous, current)
    ensures TrueChange(previous, current, change)
  {
    var departures := Departures(SortedKeys(previous.containers.Keys), previous, current);
    if change in departures {
      DeparturesAreTrue(SortedKeys(previous.containers.Keys), previous, current, change);
    } else {
      ArrivalsAreTrue(SortedKeys(current.containers.Keys), previous, current, change);
    }
  }

  lemma {:induction false} DepartureMember(keys: seq<string>, previous: Inventory, current: Inventory, id: string)
    requires id in keys && Departed(previous, current, id)
    ensures Change(ContainerDisappeared, id, Some(previous.containers[id]), None) in Departures(keys, previous, current)
  {
    var front, last := keys[..|keys| - 1], keys[|keys| - 1];
    assert keys == front + [last];
    LastDeparture(keys, front, last, previous, current, Departures(front, previous, current));
    if id != last {
      DepartureMember(front, previous, current, id);
    }
  }

  lemma {:induction false} ArrivalMember(keys: seq<string>, previous: Inventory, current: Inventory, id: string)
    requires id in keys && ArrivalChange(previous, current, id).Some?
    ensures ArrivalChange(previous, current, id).value in Arrivals(keys, previous, current)
  {
    var front, last := keys[..|keys| - 1], keys[|keys| - 1];
    assert keys == front + [last];
    LastArrival(keys, front, last, previous, current, Arrivals(front, previous, current));
    if id != last {
      ArrivalMember(front, previous, current, id);
    }
  }

  lemma TrueDeparture(previous: Inventory, current: Inventory, change: Change)
    requires TrueChange(previous, current, change) && change.kind.ContainerDisappeared?
    ensures Departed(previous, current, change.containerId)
    ensures change == Change(ContainerDisappeared, change.containerId, Some(previous.containers[change.containerId]), None)
  {
  }

  lemma TrueArrival(previous: Inventory, current: Inventory, change: Change)
    requires TrueChange(previous, current, change) && !change.kind.ContainerDisappeared?
    ensures change.containerId in current.containers
    ensures ArrivalChange(previous, current, change.containerId) == Some(change)
  {
  }

  lemma TrueIsPushed(previous: Inventory, current: Inventory, change: Change, before: seq<string>, after: seq<string>)
    requires TrueChange(previous, current, change)
    requires forall id :: id in before <==> id in previous.containers
    requires forall id :: id in after <==> id in current.containers
    ensures change in Departures(before, previous, current) || change in Arrivals(after, previous, current)
  {
    if change.kind.ContainerDisappeared? {
      TrueDeparture(previous, current, change);
      DepartureMember(before, previous, current, change.containerId);
    } else {
      TrueArrival(previous, current, change);
      ArrivalMember(after, previous, current, change.containerId);
    }
  }

  /** A step pushes exactly the true changes: every identity that came, went or changed without being ambiguous. */
  lemma ChangesExactly(previous: Inventory, current: Inventory, change: Change)
    requires WellFormed(previous) && WellFormed(current)
    ensures change in Changes(previous, current) <==> TrueChange(previous, current, change)
  {
    if change in Changes(previous, current) {
      ChangesAreTrue(previous, current, change);
    }
    if TrueChange(previous, current, change) {
      TrueIsPushed(previous, current, change, SortedKeys(previous.containers.Keys), SortedKeys(current.containers.Keys));
    }
  }

  predicate Rising(changes: seq<Change>) {
    forall i, j :: 0 <= i < j < |changes| ==>
      LexLe(changes[i].containerId, changes[j].containerId) && changes[i].containerId != changes[j].containerId
  }

  predicate KeysRise(keys: seq<string>) {
    forall i, j :: 0 <= i < j < |keys| ==> LexLe(keys[i], keys[j]) && keys[i] != keys[j]
  }

  lemma OneMoreRises(changes: seq<Change>, change: Change, front: seq<string>, last: string)
    requires Rising(changes) && KeysRise(front + [last]) && change.containerId == last
    requires forall c :: c in changes ==> c.containerId in front
    ensures Rising(changes + [change])
  {
    var all := front + [last];
    forall i | 0 <= i < |changes| ensures LexLe(changes[i].containerId, last) && changes[i].containerId != last {
      assert changes[i] in changes;
      var k :| 0 <= k < |front| && front[k] == changes[i].containerId;
      assert all[k] == front[k] && all[|front|] == last;
    }
  }

  lemma KeysRiseInFront(front: seq<string>, last: string)
    requires KeysRise(front + [last])
    ensures KeysRise(front)
  {
    var all := front + [last];
    forall i, j | 0 <= i < j < |front| ensures LexLe(front[i], front[j]) && front[i] != front[j] {
      assert all[i] == front[i] && all[j] == front[j];
    }
  }

  lemma {:induction false} DeparturesRise(keys: seq<string>, previous: Inventory, current: Inventory)
    requires KeysRise(keys)
    ensures Rising(Departures(keys, previous, current))
    ensures forall c :: c in Departures(keys, previous, current) ==> c.containerId in keys && c.kind.ContainerDisappeared?
  {
    if keys != [] {
      var front, last := keys[..|keys| - 1], keys[|keys| - 1];
      var done := Departures(front, previous, current);
      assert keys == front + [last];
      KeysRiseInFront(front, last);
      DeparturesRise(front, previous, current);
      LastDeparture(keys, front, last, previous, current, done);
      if Departed(previous, current, last) {
        OneMoreRises(done, Change(ContainerDisappeared, last, Some(previous.containers[last]), None), front, last);
      }
    }
  }

  lemma {:induction false} ArrivalsRise(keys: seq<string>, previous: Inventory, current: Inventory)
    requires KeysRise(keys)
    ensures Rising(Arrivals(keys, previous, current))
    ensures forall c :: c in Arrivals(keys, previous, current) ==> c.containerId in keys && !c.kind.ContainerDisappeared?
  {
    if keys != [] {
      var front, last := keys[..|keys| - 1], keys[|keys| - 1];
      var done, change := Arrivals(front, previous, current), ArrivalChange(previous, current, last);
      assert keys == front + [last];
      KeysRiseInFront(front, last);
      ArrivalsRise(front, previous, current);
      LastArrival(keys, front, last, previous, current, done);
      if change.Some? {
        OneMoreRises(done, change.value, front, last);
      }
    }
  }

  /** No identity changes twice in one step; what went comes first, and each part is in the order of the identities. */
  lemma ChangesAreOrdered(previous: Inventory, current: Inventory) returns (gone: nat)
    ensures var changes := Changes(previous, current);
            && gone <= |changes| && Rising(changes[..gone]) && Rising(changes[gone..])
            && (forall i :: 0 <= i < |changes| ==> (changes[i].kind.ContainerDisappeared? <==> i < gone))
            && (forall i, j :: 0 <= i < j < |changes| ==> changes[i].containerId != changes[j].containerId)
  {
    var before, after := SortedKeys(previous.containers.Keys), SortedKeys(current.containers.Keys);
    var departures, arrivals := Departures(before, previous, current), Arrivals(after, previous, current);
    DeparturesRise(before, previous, current);
    ArrivalsRise(after, previous, current);
    gone := |departures|;
    assert (departures + arrivals)[..gone] == departures && (departures + arrivals)[gone..] == arrivals;
    forall i, j | 0 <= i < |departures| && 0 <= j < |arrivals|
      ensures departures[i].containerId != arrivals[j].containerId
    {
      DepartedIsGone(before, previous, current, departures[i]);
      assert arrivals[j] in arrivals;
    }
  }

  lemma {:induction false} DepartedIsGone(keys: seq<string>, previous: Inventory, current: Inventory, change: Change)
    requires change in Departures(keys, previous, current)
    ensures change.containerId !in current.containers
  {
    if change in Departures(keys[..|keys| - 1], previous, current) {
      DepartedIsGone(keys[..|keys| - 1], previous, current, change);
    }
  }

  // ---------------------------------------------------------------- the retained history

  datatype HistoryState = HistoryState(
    boot: BootToken,
    nextSequence: nat,
    lastObservedAtMs: Option<nat>,
    baseline: Option<Inventory>,
    events: seq<ChangeEvent>)

  function NewHistory(boot: BootToken): HistoryState {
    HistoryState(boot, 0, None, None, [])
  }

  function EventId(boot: BootToken, sequence: nat): string {
    boot + ['-'] + Decimal.Print(sequence)
  }

  /** Number one change and drop the oldest events beyond the cap. */
  function Push(h: HistoryState, change: Change, at: nat): HistoryState {
    var event := ChangeEvent(EventId(h.boot, h.nextSequence + 1), at, change);
    h.(nextSequence := h.nextSequence + 1, events := LastN(h.events + [event], MAX_OBSERVED_CHANGE_EVENTS))
  }

  function PushAll(h: HistoryState, changes: seq<Change>, at: nat): HistoryState {
    if changes == [] then h else Push(PushAll(h, changes[..|changes| - 1], at), changes[|changes| - 1], at)
  }

  /** A clock a browser cannot represent, or one that runs backwards, starts a new epoch. */
  predicate Rebaselines(h: HistoryState, at: nat) {
    at > MAX_SAFE_INTEGER || (h.lastObservedAtMs.Some? && at < h.lastObservedAtMs.value)
  }

  /** Observe one published inventory; `boot` is the token a new epoch would take. */
  function Observe(h: HistoryState, current: Inventory, at: nat, boot: BootToken): HistoryState {
    if Rebaselines(h, at) then HistoryState(boot, 0, None, Some(current), [])
    else
      var seen := h.(lastObservedAtMs := Some(at), baseline := Some(current));
      if h.baseline.None? then seen else PushAll(seen, Changes(h.baseline.value, current), at)
  }

  function Response(h: HistoryState, source: RuntimeMode, modelRevision: string, observedRevision: string)
    : HistoryResponse
  {
    if source != Docker || h.baseline.None? then HistoryResponse(source, false, None, None, [])
    else HistoryResponse(source, true, Some(modelRevision), Some(observedRevision), Reverse(h.events))
  }

  function Reverse<T>(s: seq<T>): (r: seq<T>)
    ensures |r| == |s| && forall i :: 0 <= i < |r| ==> r[i] == s[|s| - 1 - i]
  {
    seq(|s|, i requires 0 <= i < |s| => s[|s| - 1 - i])
  }

  lemma PushOneMore(h: HistoryState, changes: seq<Change>, change: Change, at: nat)
    ensures PushAll(h, changes + [change], at) == Push(PushAll(h, changes, at), change, at)
  {
    assert (changes + [change])[..|changes|] == changes;
  }

  lemma {:induction false} PushTwice(h: HistoryState, a: seq<Change>, b: seq<Change>, at: nat)
    ensures PushAll(PushAll(h, a, at), b, at) == PushAll(h, a + b, at)
    decreases |b|
  {
    if b == [] {
      assert a + b == a;
    } else {
      var front, last := b[..|b| - 1], b[|b| - 1];
      PushTwice(h, a, front, at);
      PushOneMore(h, a + front, last, at);
      assert (a + front) + [last] == a + b;
    }
  }

  /** The history cache updated in place, one pushed event at a time. */
  class ObservedHistoryCache {
    var boot: BootToken
    var nextSequence: nat
    var lastObservedAtMs: Option<nat>
    var baseline: Option<Inventory>
    var events: seq<ChangeEvent>

    constructor (token: BootToken)
      ensures State() == NewHistory(token)
    {
      boot, nextSequence, lastObservedAtMs, baseline, events := token, 0, None, None, [];
    }

    function State(): HistoryState
      reads this
    {
      HistoryState(boot, nextSequence, lastObservedAtMs, baseline, events)
    }

    method DropOldest()
      modifies this`events
      ensures events == LastN(old(events), MAX_OBSERVED_CHANGE_EVENTS)
    {
      while |events| > MAX_OBSERVED_CHANGE_EVENTS
        invariant LastN(events, MAX_OBSERVED_CHANGE_EVENTS) == LastN(old(events), MAX_OBSERVED_CHANGE_EVENTS)
        decreases |events|
      {
        LastNDrop(events, MAX_OBSERVED_CHANGE_EVENTS);
        events := events[1..];
      }
    }

    method PushEvent(change: Change, at: nat)
      modifies this`nextSequence, this`events
      ensures State() == Push(old(State()), change, at)
    {
      nextSequence := nextSequence + 1;
      events := events + [ChangeEvent(EventId(boot, nextSequence), at, change)];
      DropOldest();
    }

    method PushDepartures(previous: Inventory, current: Inventory, at: nat)
      modifies this`nextSequence, this`events
      ensures State() == PushAll(old(State()), Departures(SortedKeys(previous.containers.Keys), previous, current), at)
    {
      ghost var start := State();
      var keys := SortedKeys(previous.containers.Keys);
      for k := 0 to |keys|
        invariant State() == PushAll(start, Departures(keys[..k], previous, current), at)
      {
        DepartureStep(keys, k, previous, current, start, at);
        var id := keys[k];
        if id !in current.containers && id !in current.ambiguous {
          PushEvent(Change(ContainerDisappeared, id, Some(previous.containers[id]), None), at);
        }
      }
      assert keys[..|keys|] == keys;
    }

    method PushArrivals(previous: Inventory, current: Inventory, at: nat)
      modifies this`nextSequence, this`events
      ensures State() == PushAll(old(State()), Arrivals(SortedKeys(current.containers.Keys), previous, current), at)
    {
      ghost var start := State();
      var keys := SortedKeys(current.containers.Keys);
      for k := 0 to |keys|
        invariant State() == PushAll(start, Arrivals(keys[..k], previous, current), at)
      {
        ArrivalStep(keys, k, previous, current, start, at);
        var id := keys[k];
        var after := current.containers[id];
        match Lookup(previous.containers, id)
        case None =>
          if id !in previous.ambiguous {
            PushEvent(Change(ContainerAppeared, id, None, Some(after)), at);
          }
        case Some(before) =>
          if before != after {
            PushEvent(Change(ContainerStatusChanged, id, Some(before), Some(after)), at);
          }
      }
      assert keys[..|keys|] == keys;
    }

    method ObservePublishedSnapshot(current: Inventory, lastUpdated: nat, token: BootToken)
      modifies this
      ensures State() == Observe(old(State()), current, lastUpdated, token)
    {
      if lastUpdated > MAX_SAFE_INTEGER || (lastObservedAtMs.Some? && lastUpdated < lastObservedAtMs.value) {
        boot, nextSequence, lastObservedAtMs, baseline, events := token, 0, None, Some(current), [];
        return;
      }
      lastObservedAtMs := Some(lastUpdated);
      var replaced := baseline;
      baseline := Some(current);
      if replaced.Some? {
        ghost var start := State();
        PushDepartures(replaced.value, current, lastUpdated);
        PushArrivals(replaced.value, current, lastUpdated);
        PushTwice(start, Departures(SortedKeys(replaced.value.containers.Keys), replaced.value, current),
                  Arrivals(SortedKeys(current.containers.Keys), replaced.value, current), lastUpdated);
      }
    }

    method ServeResponse(source: RuntimeMode, modelRevision: string, observedRevision: string)
      returns (r: HistoryResponse)
      ensures r == Response(State(), source, modelRevision, observedRevision)
    {
      if source != Docker || baseline.None? {
        return HistoryResponse(source, false, None, None, []);
      }
      return HistoryResponse(source, true, Some(modelRevision), Some(observedRevision), Reverse(events));
    }
  }

  lemma DepartureStep(keys: seq<string>, k: nat, previous: Inventory, current: Inventory, start: HistoryState, at: nat)
    requires k < |keys| && keys[k] in previous.containers
    ensures var done := Departures(keys[..k], previous, current);
            var id := keys[k];
            PushAll(start, Departures(keys[..k + 1], previous, current), at)
            == if Departed(previous, current, id)
               then Push(PushAll(start, done, at), Change(ContainerDisappeared, id, Some(previous.containers[id]), None), at)
               else PushAll(start, done, at)
  {
    var done := Departures(keys[..k], previous, current);
    var id := keys[k];
    assert keys[..k + 1][..k] == keys[..k];
    if Departed(previous, current, id) {
      PushOneMore(start, done, Change(ContainerDisappeared, id, Some(previous.containers[id]), None), at);
    } else {
      assert Departures(keys[..k + 1], previous, current) == done;
    }
  }

  lemma ArrivalStep(keys: seq<string>, k: nat, previous: Inventory, current: Inventory, start: HistoryState, at: nat)
    requires k < |keys|
    ensures var done := Arrivals(keys[..k], previous, current);
            var change := ArrivalChange(previous, current, keys[k]);
            PushAll(start, Arrivals(keys[..k + 1], previous, current), at)
            == if change.Some? then Push(PushAll(start, done, at), change.value, at) else PushAll(start, done, at)
  {
    var done := Arrivals(keys[..k], previous, current);
    var change := ArrivalChange(previous, current, keys[k]);
    assert keys[..k + 1][..k] == keys[..k];
    if change.Some? {
      PushOneMore(start, done, change.value, at);
    } else {
      assert Arrivals(keys[..k + 1], previous, current) == done;
    }
  }
}
