/**
 Feeding the graph cache from the built-in readers. Each reader of discovery
 data hands out batches of samples; a sample with data announces a remote
 endpoint, one without says that an instance is gone. A map from instances to
 endpoints remembers what was added, because a sample without data names only
 its instance. The model is of one kind of endpoint, writers or readers, which
 the source keeps apart in both the map and the cache.
 */
module Discovery {
  import opened Options
  import opened Bytes
  import opened ReturnCodes

  type Handle = int
  type Gid = s: seq<Byte> | |s| == 16 witness seq(16, _ => 0)

  /** What the cache records of an endpoint: topic, type, type hashes and QoS. */
  type Description = seq<Byte>

  /** What parsing a payload gives. The topic on which ROS nodes describe
      themselves is not an endpoint of the graph. */
  datatype Announcement = Malformed | RosDiscovery | BadTypeHash | Announced(description: Description)

  datatype Info = Info(valid: bool, instance: Handle)

  /** The answer to one take, and to the return of its loan. */
  datatype Batch = Batch(
    code: DdsCode, infos: seq<Info>, payloads: seq<Announcement>, hashes: seq<Byte>, returned: DdsCode)

  /** endpoint_gid: all zeros if the hashes are too short. */
  function EndpointGid(hashes: seq<Byte>, index: nat): Gid {
    if index * 16 + 16 <= |hashes| then hashes[index * 16..index * 16 + 16] else seq(16, _ => 0)
  }

  lemma EndpointGidBytes(hashes: seq<Byte>, index: nat, k: nat)
    requires k < 16
    ensures 16 * (index + 1) <= |hashes| ==> EndpointGid(hashes, index)[k] == hashes[16 * index + k]
    ensures 16 * (index + 1) > |hashes| ==> EndpointGid(hashes, index)[k] == 0
  {
  }

  /** What a sample asks for. */
  datatype Item =
    | Gone(instance: Handle)
    | Found(instance: Handle, gid: Gid, description: Description)
    | Ignored
    | Broken

  function ItemAt(batch: Batch, i: nat): Item
    requires i < |batch.infos|
  {
    var info := batch.infos[i];
    if !info.valid then Gone(info.instance)
    else if i >= |batch.payloads| then Broken
    else match batch.payloads[i]
         case Malformed => Broken
         case RosDiscovery => Ignored
         case BadTypeHash => Broken
         case Announced(description) => Found(info.instance, EndpointGid(batch.hashes, i), description)
  }

  /** The items of a batch from sample `i` on, up to the first broken one. */
  function ItemsFrom(batch: Batch, i: nat): (items: seq<Item>)
    requires i <= |batch.infos|
    ensures forall item | item in items :: !item.Broken?
    decreases |batch.infos| - i
  {
    if i == |batch.infos| || ItemAt(batch, i).Broken? then []
    else [ItemAt(batch, i)] + ItemsFrom(batch, i + 1)
  }

  /** The items of a batch that are carried out. */
  function Items(batch: Batch): seq<Item> {
    if batch.code.DdsOk? then ItemsFrom(batch, 0) else []
  }

  /** Samples of the batch are lost: an earlier sample is broken. */
  predicate CutShort(batch: Batch) {
    batch.code.DdsOk? && |ItemsFrom(batch, 0)| < |batch.infos|
  }

  predicate Succeeds(batch: Batch) {
    batch.code.DdsNoData? || (batch.code.DdsOk? && batch.returned.DdsOk? && !CutShort(batch))
  }

  /** Every sample is carried out exactly when the batch is not cut short, that
      is, when no sample is broken. */
  lemma {:induction false} CutShortIffBroken(batch: Batch, i: nat)
    requires i <= |batch.infos|
    ensures |ItemsFrom(batch, i)| < |batch.infos| - i <==> exists n | i <= n < |batch.infos| :: ItemAt(batch, n).Broken?
    ensures forall n | 0 <= n < |ItemsFrom(batch, i)| ::
              i + n < |batch.infos| && ItemsFrom(batch, i)[n] == ItemAt(batch, i + n)
    decreases |batch.infos| - i
  {
    if i < |batch.infos| && !ItemAt(batch, i).Broken? {
      CutShortIffBroken(batch, i + 1);
    }
  }

  /** A take of a reader succeeds when there was nothing, or when every sample
      with data has a payload that parses, and the loan could be returned. */
  lemma SucceedsIff(batch: Batch)
    ensures Succeeds(batch) <==>
              || batch.code.DdsNoData?
              || (batch.code.DdsOk? && batch.returned.DdsOk?
                  && forall i | 0 <= i < |batch.infos| && batch.infos[i].valid ::
                       i < |batch.payloads| && !batch.payloads[i].Malformed? && !batch.payloads[i].BadTypeHash?)
  {
    CutShortIffBroken(batch, 0);
    assert forall i | 0 <= i < |batch.infos| :: ItemAt(batch, i).Broken? <==>
        && batch.infos[i].valid
        && (i >= |batch.payloads| || batch.payloads[i].Malformed? || batch.payloads[i].BadTypeHash?);
  }

  datatype Directory = Directory(instances: map<Handle, Gid>, entities: map<Gid, Description>)

  function Apply(directory: Directory, item: Item): Directory {
    match item
    case Gone(instance) =>
      if instance in directory.instances
      then Directory(directory.instances - {instance}, directory.entities - {directory.instances[instance]})
      else directory
    case Found(instance, gid, description) =>
      Directory(directory.instances[instance := gid],
                if gid in directory.entities then directory.entities else directory.entities[gid := description])
    case Ignored => directory
    case Broken => directory
  }

  function ApplyAll(directory: Directory, items: seq<Item>): Directory
    decreases |items|
  {
    if items == [] then directory else ApplyAll(Apply(directory, items[0]), items[1..])
  }

  /** One of the items, when its turn comes, changes the entities. */
  ghost predicate Alters(directory: Directory, items: seq<Item>) {
    exists n | 0 <= n < |items| ::
      Apply(ApplyAll(directory, items[..n]), items[n]).entities != ApplyAll(directory, items[..n]).entities
  }

  lemma {:induction false} ApplyAllAppends(directory: Directory, items: seq<Item>, item: Item)
    ensures ApplyAll(directory, items + [item]) == Apply(ApplyAll(directory, items), item)
    decreases |items|
  {
    if items == [] {
      assert [] + [item] == [item];
      assert ApplyAll(directory, [item]) == ApplyAll(Apply(directory, item), [item][1..]);
    } else {
      assert (items + [item])[1..] == items[1..] + [item];
      ApplyAllAppends(Apply(directory, items[0]), items[1..], item);
    }
  }

  lemma BrokenChangesNothing(directory: Directory, item: Item)
    requires item.Broken?
    ensures Apply(directory, item) == directory
  {
  }

  lemma AltersOneMore(directory: Directory, items: seq<Item>, item: Item)
    ensures Alters(directory, items + [item]) <==>
              || Alters(directory, items)
              || Apply(ApplyAll(directory, items), item).entities != ApplyAll(directory, items).entities
  {
    var more := items + [item];
    assert more[..|items|] == items && more[|items|] == item;
    forall n | 0 <= n < |items| ensures more[..n] == items[..n] && more[n] == items[n] {
    }
  }

  /** The part of the graph cache and the map that hold one kind of endpoint. */
  class Context {
    var instances: map<Handle, Gid>
    var entities: map<Gid, Description>

    ghost function Contents(): Directory
      reads this
    {
      Directory(instances, entities)
    }

    /** rmw_dds_common's add_entity: an entity that is known is left alone. */
    method AddEntity(gid: Gid, description: Description) returns (added: bool)
      modifies `entities
      ensures entities == if gid in old(entities) then old(entities) else old(entities)[gid := description]
      ensures added <==> entities != old(entities)
    {
      added := gid !in entities;
      if added {
        ghost var before := entities;
        entities := entities[gid := description];
        assert gid in entities && gid !in before;
      }
    }

    method RemoveEntity(gid: Gid) returns (removed: bool)
      modifies `entities
      ensures entities == old(entities) - {gid}
      ensures removed <==> entities != old(entities)
    {
      removed := gid in entities;
      ghost var before := entities;
      entities := entities - {gid};
      assert gid !in entities;
      assert !removed ==> entities == before;
    }

    /** The body of the loop of consume_reader, for sample `i`. */
    method ConsumeSample(batch: Batch, i: nat) returns (ok: bool, altered: bool)
      requires i < |batch.infos|
      modifies this
      ensures ok <==> !ItemAt(batch, i).Broken?
      ensures Contents() == Apply(old(Contents()), ItemAt(batch, i))
      ensures altered <==> entities != old(entities)
      ensures ok <==> batch.infos[i].valid ==>
                i < |batch.payloads| && !batch.payloads[i].Malformed? && !batch.payloads[i].BadTypeHash?
      ensures var instance := batch.infos[i].instance;
              if batch.infos[i].valid then
                if i < |batch.payloads| && batch.payloads[i].Announced? then
                  var gid := EndpointGid(batch.hashes, i);
                  && instances == old(instances)[instance := gid]
                  && entities == if gid in old(entities) then old(entities)
                                 else old(entities)[gid := batch.payloads[i].description]
                else instances == old(instances) && entities == old(entities)
              else
                && instances == old(instances) - {instance}
                && entities == if instance in old(instances) then old(entities) - {old(instances)[instance]}
                               else old(entities)
    {
      ok, altered := true, false;
      var info := batch.infos[i];
      if !info.valid {
        if info.instance in instances {
          altered := RemoveEntity(instances[info.instance]);
          instances := instances - {info.instance};
        }
        return;
      }
      if i >= |batch.payloads| || batch.payloads[i].Malformed? {
        return false, false;
      }
      if batch.payloads[i].RosDiscovery? {
        return;
      }
      if batch.payloads[i].BadTypeHash? {
        return false, false;
      }
      var endpoint := EndpointGid(batch.hashes, i);
      altered := AddEntity(endpoint, batch.payloads[i].description);
      instances := instances[info.instance := endpoint];
    }

    /**
     consume_reader: carries out the items of a batch in order, up to the first
     broken one, which makes it fail; `changed` becomes true exactly when one of
     them altered the entities.
     */
    method ConsumeReader(batch: Batch, alreadyChanged: bool) returns (code: RmwCode, changed: bool)
      modifies this
      ensures Contents() == ApplyAll(old(Contents()), Items(batch))
      ensures changed <==> alreadyChanged || Alters(old(Contents()), Items(batch))
      ensures code.RmwOk? <==> Succeeds(batch)
      ensures !code.RmwOk? ==> code.RmwError?
    {
      changed := alreadyChanged;
      if batch.code.DdsNoData? {
        return RmwOk, changed;
      }
      if !batch.code.DdsOk? {
        return RmwError, changed;
      }
      code := RmwOk;
      ghost var before, done := Contents(), [];
      assert ApplyAll(before, []) == before && !Alters(before, []);
      hide ApplyAll, Alters, Apply;
      for i := 0 to |batch.infos|
        invariant code.RmwOk? && |done| == i
        invariant done + ItemsFrom(batch, i) == ItemsFrom(batch, 0)
        invariant Contents() == ApplyAll(before, done)
        invariant changed <==> alreadyChanged || Alters(before, done)
      {
        ghost var item := ItemAt(batch, i);
        var ok, altered := ConsumeSample(batch, i);
        AltersOneMore(before, done, item);
        ApplyAllAppends(before, done, item);
        if !ok {
          code := RmwError;
          BrokenChangesNothing(ApplyAll(before, done), item);
          break;
        }
        changed := changed || altered;
        assert done + ([item] + ItemsFrom(batch, i + 1)) == (done + [item]) + ItemsFrom(batch, i + 1);
        done := done + [item];
      }
      assert done + [] == done;
      if !code.RmwOk? || !batch.returned.DdsOk? {
        code := RmwError;
      }
    }
  }

  /**
   refresh_discovered_endpoints: the writers, then, if that went well, the
   readers. When the readers fail, a change of the writers is not announced by
   this call.
   */
  method Refresh(writers: Context, readers: Context, publications: Batch, subscriptions: Batch)
    returns (code: RmwCode, notified: bool)
    requires writers != readers
    modifies writers, readers
    ensures writers.Contents() == ApplyAll(old(writers.Contents()), Items(publications))
    ensures readers.Contents() ==
              if Succeeds(publications) then ApplyAll(old(readers.Contents()), Items(subscriptions))
              else old(readers.Contents())
    ensures code == if Succeeds(publications) && Succeeds(subscriptions) then RmwOk else RmwError
    ensures notified <==>
              && Succeeds(publications) && Succeeds(subscriptions)
              && (|| Alters(old(writers.Contents()), Items(publications))
                  || Alters(old(readers.Contents()), Items(subscriptions)))
  {
    var changed;
    code, changed := writers.ConsumeReader(publications, false);
    if code.RmwOk? {
      code, changed := readers.ConsumeReader(subscriptions, changed);
    }
    notified := code.RmwOk? && changed;
  }

  /** A new writer is found and the readers cannot be taken: the cache changes and
      nothing is announced. */
  lemma WriterFoundSilently(instance: Handle, hashes: seq<Byte>, description: Description, subscriptions: Batch)
    requires subscriptions.code.DdsError?
    ensures var nothing := Directory(map[], map[]);
            var publications := Batch(DdsOk, [Info(true, instance)], [Announced(description)], hashes, DdsOk);
            && Succeeds(publications)
            && EndpointGid(hashes, 0) in ApplyAll(nothing, Items(publications)).entities
            && Alters(nothing, Items(publications))
            && !Succeeds(subscriptions)
  {
    var nothing := Directory(map[], map[]);
    var publications := Batch(DdsOk, [Info(true, instance)], [Announced(description)], hashes, DdsOk);
    var found := Found(instance, EndpointGid(hashes, 0), description);
    assert ItemsFrom(publications, 1) == [];
    assert Items(publications) == [found];
    assert [found][..0] == [];
    ApplyAllAppends(nothing, [], found);
    assert [] + [found] == [found];
    assert Apply(ApplyAll(nothing, [found][..0]), [found][0]).entities != ApplyAll(nothing, [found][..0]).entities;
  }

  /** An instance handle and a key hash determine each other, and no remote
      endpoint has the GID of a local one. */
  ghost predicate Identifies(key: Handle -> Gid, local: set<Gid>) {
    && (forall a, b :: key(a) == key(b) ==> a == b)
    && (forall h :: key(h) !in local)
  }

  /** The samples carry the key hashes of their instances. */
  ghost predicate Keyed(items: seq<Item>, key: Handle -> Gid) {
    forall item | item in items && item.Found? :: item.gid == key(item.instance)
  }

  /** What happens to the cache: discovery, and local endpoints come and go. */
  datatype Action =
    | Discover(batch: Batch)
    | AddLocal(gid: Gid, description: Description)
    | RemoveLocal(gid: Gid)

  ghost predicate Proper(action: Action, key: Handle -> Gid, local: set<Gid>) {
    match action
    case Discover(batch) => Keyed(Items(batch), key)
    case AddLocal(gid, _) => gid in local
    case RemoveLocal(gid) => gid in local
  }

  function Act(directory: Directory, action: Action): Directory {
    match action
    case Discover(batch) => ApplyAll(directory, Items(batch))
    case AddLocal(gid, description) =>
      directory.(entities := if gid in directory.entities then directory.entities
                             else directory.entities[gid := description])
    case RemoveLocal(gid) => directory.(entities := directory.entities - {gid})
  }

  function Run(actions: seq<Action>): Directory {
    if actions == [] then Directory(map[], map[])
    else Act(Run(actions[..|actions| - 1]), actions[|actions| - 1])
  }

  /** All items that discovery has carried out. */
  function History(actions: seq<Action>): seq<Item> {
    if actions == [] then []
    else
      var last := actions[|actions| - 1];
      History(actions[..|actions| - 1]) + if last.Discover? then Items(last.batch) else []
  }

  function TrackOne(track: Option<Description>, item: Item, instance: Handle): Option<Description> {
    match item
    case Gone(i) => if i == instance then None else track
    case Found(i, _, description) => if i == instance && track.None? then Some(description) else track
    case Ignored => track
    case Broken => track
  }

  /** What the items make of one instance: nothing if it was never found or is
      gone, and otherwise its first description since. */
  function Track(items: seq<Item>, instance: Handle): Option<Description> {
    if items == [] then None
    else TrackOne(Track(items[..|items| - 1], instance), items[|items| - 1], instance)
  }

  /** The directory has exactly the tracked instances, under their GIDs and with
      their descriptions, and otherwise only local endpoints. */
  ghost predicate Holds(directory: Directory, items: seq<Item>, key: Handle -> Gid, local: set<Gid>) {
    && (forall h :: h in directory.instances <==> Track(items, h).Some?)
    && (forall h | h in directory.instances ::
          && directory.instances[h] == key(h)
          && key(h) in directory.entities && directory.entities[key(h)] == Track(items, h).value)
    && (forall g | g in directory.entities && g !in local :: exists h :: h in directory.instances && key(h) == g)
  }

  lemma ItemKeepsHolds(directory: Directory, items: seq<Item>, item: Item, key: Handle -> Gid, local: set<Gid>)
    requires Identifies(key, local) && Keyed([item], key) && Holds(directory, items, key, local)
    ensures Holds(Apply(directory, item), items + [item], key, local)
  {
    var next, more := Apply(directory, item), items + [item];
    assert more[..|more| - 1] == items;
    assert item in [item];
    forall h ensures Track(more, h) == TrackOne(Track(items, h), item, h) {
    }
    forall g | g in next.entities && g !in local ensures exists h :: h in next.instances && key(h) == g {
      if g in directory.entities {
        var h :| h in directory.instances && key(h) == g;
        assert h in next.instances;
      } else {
        assert item.instance in next.instances;
      }
    }
  }

  lemma {:induction false} BatchKeepsHolds(directory: Directory, past: seq<Item>, items: seq<Item>,
                                           key: Handle -> Gid, local: set<Gid>)
    requires Identifies(key, local) && Keyed(items, key) && Holds(directory, past, key, local)
    ensures Holds(ApplyAll(directory, items), past + items, key, local)
    decreases |items|
  {
    if items == [] {
      assert past + items == past;
    } else {
      ItemKeepsHolds(directory, past, items[0], key, local);
      BatchKeepsHolds(Apply(directory, items[0]), past + [items[0]], items[1..], key, local);
      assert past + items == past + [items[0]] + items[1..];
    }
  }

  lemma HeldAreValues(directory: Directory, items: seq<Item>, key: Handle -> Gid, local: set<Gid>)
    requires Identifies(key, local) && Holds(directory, items, key, local)
    ensures directory.entities.Keys - local == directory.instances.Values
  {
    forall g | g in directory.entities && g !in local ensures g in directory.instances.Values {
      var h :| h in directory.instances && key(h) == g;
      assert directory.instances[h] == g;
    }
    forall h | h in directory.instances ensures directory.instances[h] in directory.entities.Keys - local {
    }
    assert directory.instances.Values <= directory.entities.Keys - local;
  }

  /**
   After any discovery, in batches that may be cut short by an error, and any
   coming and going of local endpoints, the cache holds of the remote endpoints
   exactly the values of the instance map, which are exactly the endpoints that
   the samples carried out say exist, each with its first description since it
   appeared.
   */
  lemma {:induction false} CacheHoldsDiscovered(actions: seq<Action>, key: Handle -> Gid, local: set<Gid>)
    requires Identifies(key, local)
    requires forall action | action in actions :: Proper(action, key, local)
    ensures Holds(Run(actions), History(actions), key, local)
    ensures Run(actions).entities.Keys - local == Run(actions).instances.Values
  {
    if actions != [] {
      var last, before := actions[|actions| - 1], actions[..|actions| - 1];
      CacheHoldsDiscovered(before, key, local);
      assert Proper(last, key, local);
      match last
      case Discover(batch) => BatchKeepsHolds(Run(before), History(before), Items(batch), key, local);
      case AddLocal(gid, _) => assert History(actions) == History(before);
      case RemoveLocal(gid) => assert History(actions) == History(before);
    }
    HeldAreValues(Run(actions), History(actions), key, local);
  }

  /**
   The samples after a broken one are lost: a batch that announces an endpoint,
   is broken, and reports the endpoint gone leaves the endpoint in the cache.
   */
  lemma CutShortKeepsGoneEndpoint(instance: Handle, hashes: seq<Byte>, description: Description)
    ensures var batch := Batch(DdsOk, [Info(true, instance), Info(true, instance + 1), Info(false, instance)],
                               [Announced(description), Malformed, Malformed], hashes, DdsOk);
            && CutShort(batch)
            && EndpointGid(hashes, 0) in Run([Discover(batch)]).entities
            && instance in Run([Discover(batch)]).instances
  {
    var batch := Batch(DdsOk, [Info(true, instance), Info(true, instance + 1), Info(false, instance)],
                       [Announced(description), Malformed, Malformed], hashes, DdsOk);
    var found := Found(instance, EndpointGid(hashes, 0), description);
    assert ItemAt(batch, 1).Broken?;
    assert ItemsFrom(batch, 1) == [];
    assert Items(batch) == [found];
    var actions := [Discover(batch)];
    assert Run(actions[..0]) == Directory(map[], map[]);
    assert Run(actions) == ApplyAll(Run(actions[..0]), [found]);
    assert ApplyAll(Run(actions[..0]), [found]) == Apply(Directory(map[], map[]), found);
  }
}
