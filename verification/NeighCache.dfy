/**
 The cache: the hash table together with the entries it links.  An entry is linked
 exactly if the table finds it under its name, so that whether it may be taken out
 depends on nothing but its own reference count.
 */
module NeighCache {
  import opened Common
  import opened NeighEntry
  import opened NeighTable

  /** An entry with the device and key it is for. */
  datatype Cached = Cached(name: Name, entry: Entry)

  /** Entries, by their addresses, and the map the table stands for: linked means found under that name. */
  ghost predicate Agrees(es: map<nat, Cached>, m: map<Name, nat>) {
    && (forall id :: id in es ==> Sound(es[id].entry) && !es[id].entry.use.isNew)
    && (forall id :: id in es ==> (es[id].entry.use.linked <==> es[id].name in m && m[es[id].name] == id))
    && (forall name :: name in m ==> m[name] in es && es[m[name]].name == name)
  }

  function Changed(es: map<nat, Cached>, id: nat, e: Entry): map<nat, Cached>
    requires id in es
  {
    es[id := es[id].(entry := e)]
  }

  /** At most one linked entry has a given name. */
  lemma {:induction false} OnePerName(es: map<nat, Cached>, m: map<Name, nat>, i: nat, j: nat)
    requires Agrees(es, m) && i in es && j in es && es[i].entry.use.linked && es[j].entry.use.linked && es[i].name == es[j].name
    ensures i == j
  {}

  lemma {:induction false} ChangedAgrees(es: map<nat, Cached>, m: map<Name, nat>, id: nat, e: Entry)
    requires Agrees(es, m) && id in es && Sound(e) && !e.use.isNew && e.use.linked == es[id].entry.use.linked
    ensures Agrees(Changed(es, id, e), m)
  {}

  /** No entry is at the address, or one that has been freed. */
  predicate Vacant(es: map<nat, Cached>, id: nat) {
    id in es ==> es[id].entry.refs.destroyed
  }

  lemma {:induction false} AddedAgrees(es: map<nat, Cached>, m: map<Name, nat>, id: nat, name: Name, e: Entry)
    requires Agrees(es, m) && Vacant(es, id) && name !in m && Sound(e) && !e.use.isNew && e.use.linked
    ensures Agrees(es[id := Cached(name, e)], m[name := id])
  {}

  lemma {:induction false} RemovedAgrees(es: map<nat, Cached>, m: map<Name, nat>, id: nat, e: Entry)
    requires Agrees(es, m) && id in es && es[id].entry.use.linked && Sound(e) && !e.use.isNew && !e.use.linked
    ensures Agrees(Changed(es, id, e), m - {es[id].name})
  {}

  /** Operations on an entry that leave its link alone. */
  predicate OnEntry(s: Step) {
    !s.DoLink? && !s.DoCollect? && !s.DoFlush?
  }

  lemma {:induction false} OnEntryLinked(e: Entry, s: Step)
    requires Sound(e) && Enabled(e, s) && OnEntry(s) && !e.use.isNew
    ensures var r := Apply(e, s); Sound(r) && r.use.linked == e.use.linked && !r.use.isNew
  {
    StepSound(e, s);
    match s
    case Handle(now) => HandleSound(e, now);
    case DoSend(now) => SendSound(e, now);
    case DoUpdate(lladdr, goal, flags, now) => UpdateSound(e, lladdr, goal, flags, now);
    case _ =>
  }

  /** What flushing makes of an entry. */
  function FlushIf(id: nat, c: Cached, gone: Item -> bool): Cached {
    if c.entry.use.linked && gone(Item(c.name, id)) then c.(entry := Flush(c.entry)) else c
  }

  function FlushAll(es: map<nat, Cached>, gone: Item -> bool): map<nat, Cached> {
    map id | id in es :: FlushIf(id, es[id], gone)
  }

  lemma {:induction false} FlushIfSound(id: nat, c: Cached, gone: Item -> bool)
    requires Sound(c.entry) && !c.entry.use.isNew
    ensures var r := FlushIf(id, c, gone);
            && Sound(r.entry) && !r.entry.use.isNew && r.name == c.name
            && (r.entry.use.linked <==> c.entry.use.linked && !gone(Item(c.name, id)))
  {
    if c.entry.use.linked { FlushSound(c.entry); }
  }

  lemma {:induction false} FlushedAgrees(es: map<nat, Cached>, m: map<Name, nat>, gone: Item -> bool)
    requires Agrees(es, m)
    ensures Agrees(FlushAll(es, gone), Remaining(m, gone))
  {
    forall id | id in es ensures var r := FlushIf(id, es[id], gone);
                && Sound(r.entry) && !r.entry.use.isNew && r.name == es[id].name
                && (r.entry.use.linked <==> es[id].entry.use.linked && !gone(Item(es[id].name, id))) {
      FlushIfSound(id, es[id], gone);
    }
  }

  lemma {:induction false} LinkSound(e: Entry, wantRef: bool)
    requires Sound(e) && e.use.isNew
    ensures Sound(Link(e, wantRef)) && Link(e, wantRef).use == Use(false, true, One(wantRef))
  {}

  class Cache {
    const table: Table
    var entries: map<nat, Cached>

    ghost predicate Valid()
      reads this, table
    {
      table.Valid() && Agrees(entries, table.contents)
    }

    constructor (h: Hash, seed: int)
      ensures Valid() && entries == map[] && fresh(table)
    {
      table := new Table(h, seed);
      entries := map[];
    }

    /** Finds the one linked entry of a name and takes a reference to it. */
    method Lookup(name: Name) returns (r: Option<nat>)
      requires Valid()
      modifies this
      ensures Valid()
      ensures r.None? ==> entries == old(entries) && forall id :: id in entries && entries[id].name == name ==> !entries[id].entry.use.linked
      ensures r.Some? ==> r.value in old(entries) && old(entries)[r.value].name == name && old(entries)[r.value].entry.use.linked
      ensures r.Some? ==> entries == Changed(old(entries), r.value, Apply(old(entries)[r.value].entry, Take))
    {
      r := table.Lookup(name);
      if r.Some? {
        var e := entries[r.value].entry;
        OnEntryLinked(e, Take);
        ChangedAgrees(entries, table.contents, r.value, Apply(e, Take));
        entries := Changed(entries, r.value, Apply(e, Take));
      }
    }

    /**
     Constructs an entry and links it, unless one of its name is linked already or the
     device is going away.  What a caller that wants a reference gets is held once more.
     */
    method Create(id: nat, name: Name, dev: Device, kind: AddrType, parms: Params, now: int, wantRef: bool,
                  population: nat, seed: int, room: bool, parmsDead: bool) returns (r: Created)
      requires Valid() && Vacant(entries, id) && population <= Power(32)
      modifies this, table
      ensures Valid() && (r == Refused <==> parmsDead)
      ensures r == Refused ==> entries == old(entries)
      ensures r == Fresh ==> entries == old(entries)[id := Cached(name, Link(Construct(dev, kind, parms, now), wantRef))]
      ensures r == Fresh ==> forall i :: i in old(entries) && old(entries)[i].name == name ==> !old(entries)[i].entry.use.linked
      ensures r.Existing? ==> r.id in old(entries) && old(entries)[r.id].name == name && old(entries)[r.id].entry.use.linked
      ensures r.Existing? ==> entries == if wantRef then Changed(old(entries), r.id, Apply(old(entries)[r.id].entry, Take)) else old(entries)
    {
      var n := Construct(dev, kind, parms, now);
      ConstructSound(dev, kind, parms, now);
      ConstructIs(dev, kind, parms, now);
      LinkSound(n, wantRef);
      var e := Link(n, wantRef);
      ghost var before := table.contents;
      r := table.Create(Item(name, id), population, seed, room, parmsDead);
      if r == Fresh {
        AddedAgrees(entries, before, id, name, e);
        entries := entries[id := Cached(name, e)];
      } else if r.Existing? && wantRef {
        var held := entries[r.id].entry;
        OnEntryLinked(held, Take);
        ChangedAgrees(entries, table.contents, r.id, Apply(held, Take));
        entries := Changed(entries, r.id, Apply(held, Take));
      }
    }

    /** Takes an entry out exactly if it is linked and the table has the only reference to it. */
    method RemoveOne(id: nat) returns (ok: bool)
      requires Valid() && id in entries
      modifies this, table
      ensures Valid()
      ensures var e := old(entries)[id].entry;
              ok <==> e.use.linked && !e.refs.pending && !e.refs.firing && e.use.holders == 0 && e.refs.bugs == []
      ensures if ok then entries == Changed(old(entries), id, Collect(old(entries)[id].entry)) && entries[id].entry.refs.destroyed
              else entries == old(entries)
    {
      var c := entries[id];
      ghost var before := table.contents;
      ok := table.RemoveOne(Item(c.name, id), c.entry.refs.refcnt == 1);
      if ok {
        StepSound(c.entry, DoCollect);
        RemovedAgrees(entries, before, id, Collect(c.entry));
        entries := Changed(entries, id, Collect(c.entry));
      }
    }

    /** Flushes the entries of a device, or of all devices, perhaps but for the permanent ones. */
    method FlushDev(dev: Option<Dev>, skipPermanent: bool)
      requires Valid()
      modifies this, table
      ensures Valid() && entries.Keys == old(entries).Keys
      ensures forall id :: id in entries ==>
                var was := old(entries)[id];
                if was.entry.use.linked && (dev.None? || was.name.0 == dev.value) && !(skipPermanent && was.entry.state.Permanent?)
                then entries[id] == was.(entry := Flush(was.entry)) && !entries[id].entry.use.linked
                else entries[id] == was
    {
      var es := entries;
      var keep := (x: Item) => skipPermanent && x.id in es && es[x.id].entry.state.Permanent?;
      FlushedAgrees(es, table.contents, Leaving(dev, keep));
      table.FlushDev(dev, keep);
      entries := FlushAll(es, Leaving(dev, keep));
    }

    /** Any operation on one entry leaves the table and the other entries alone. */
    method Operate(id: nat, s: Step)
      requires Valid() && id in entries && OnEntry(s) && Enabled(entries[id].entry, s)
      modifies this
      ensures Valid() && entries == Changed(old(entries), id, Apply(old(entries)[id].entry, s))
    {
      var e := entries[id].entry;
      OnEntryLinked(e, s);
      ChangedAgrees(entries, table.contents, id, Apply(e, s));
      entries := Changed(entries, id, Apply(e, s));
    }
  }
}
