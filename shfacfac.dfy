/**
 * The current library (src/SHFacFac.js): a factory bound to a namespace that
 * mints stores, each store saving objects of one type into a shared backend.
 *
 * Two crashes in this copy come from moving the store's state into
 * `_internal` and are modelled as the evident intent, which is what the
 * older copy does: `remove` of an object tests `item instanceof this.clazz`
 * (the class now lives in `_internal.clazz`), and `removeFromStore` calls
 * `store.Storage.removeItem` (the backend now lives in `_internal.Storage`).
 */
module SHFacFac {
  import opened Wrappers
  import opened Text
  import opened HexCodec
  import opened Sorting
  import opened Engine
  import opened Storage
  import opened Objects

  /** What `SHFacFac(global, ns)` returns: the API of one namespace. */
  class Factory {
    /** The namespace the factory was made for. */
    const name: string
    /** The start of every key the factory's stores write. */
    const factoryPrefix: string := FactoryPrefix(name)

    constructor (ns: string)
      ensures name == ns
    {
      name := ns;
    }

    /** `getName()`. */
    function GetName(): (r: string)
      ensures r == name
    {
      name
    }

    /** `getPrefix()`. */
    function GetPrefix(): (r: string)
      ensures r == "_shfacfac_" + Lower(name) + "_"
    {
      FactoryPrefixSpelled(name);
      factoryPrefix
    }

    /** `createStore(clazz, options)`, with the chosen backend passed in. */
    method CreateStore(clazz: string, options: map<string, Setting>, storage: Backend) returns (s: Store)
      ensures fresh(s)
      ensures s.clazz == clazz && s.storage == storage && s.NS == DataNS(name)
      ensures s.PREFIX == StorePrefix(factoryPrefix, ChosenPrefix(options, clazz))
      ensures s.prop == PropsFor(s.PREFIX)
      ensures s.session == ChosenSession(options)
    {
      s := new Store(factoryPrefix, name, clazz, options, storage);
    }
  }

  /** A store for the objects of one type. */
  class Store {
    /** The type the store accepts, named by its constructor. */
    const clazz: string
    /** The envelope's property name on stored objects. */
    const NS: string
    const PREFIX: string
    const prop: Props
    /** Whether the session backend was asked for. */
    const session: bool
    const storage: Backend

    constructor (factoryPrefix: string, ns: string, clazz: string, options: map<string, Setting>, storage: Backend)
      ensures this.clazz == clazz && this.storage == storage && NS == DataNS(ns)
      ensures PREFIX == StorePrefix(factoryPrefix, ChosenPrefix(options, clazz))
      ensures prop == PropsFor(PREFIX)
      ensures session == ChosenSession(options)
    {
      var defaults := Defaults(clazz);
      var opts := ApplyDefaults(options, defaults);
      assert defaults[0].0 == "prefix" && defaults[1].0 == "session";
      this.clazz := clazz;
      this.storage := storage;
      session := Truthy(opts["session"]);
      NS := DataNS(ns);
      PREFIX := StorePrefix(factoryPrefix, SettingText(opts["prefix"]));
      prop := PropsFor(StorePrefix(factoryPrefix, SettingText(opts["prefix"])));
    }

    /** `info(obj, prop)`: one field of the object's envelope. */
    function Info(obj: Item, field: string): (r: Result<Field, Error>)
      reads obj
      ensures obj.env.None? ==> r == Err(MissingEnvelope)
      ensures obj.env.Some? ==> r == Ok(InfoOf(obj.env.value, field))
    {
      match obj.env
      case None => Err(MissingEnvelope)
      case Some(e) => Ok(InfoOf(e, field))
    }

    /**
     * `store(obj)` at time `ts`: check the type, mint or refresh the
     * envelope, write the object without its `Date`s under its id, then
     * rebuild the `Date`s. Only the entry under the id changes.
     */
    method Save(obj: Item, ts: nat) returns (r: Result<string, Error>)
      requires storage.Valid()
      modifies obj, storage
      ensures storage.Valid()
      ensures obj.tag == old(obj.tag) && obj.payload == old(obj.payload)
      ensures obj.tag != clazz ==> r == Err(TypeMismatch) && obj.env == old(obj.env) && unchanged(storage)
      ensures obj.tag == clazz && Stamp(old(obj.env), prop.id, ts).id.None? ==>
        r == Err(NoId) && obj.env == Some(Stamp(old(obj.env), prop.id, ts)) && unchanged(storage)
      ensures obj.tag == clazz && Stamp(old(obj.env), prop.id, ts).id.Some? ==>
        var id := Stamp(old(obj.env), prop.id, ts).id.value;
        && r == Ok(id)
        && obj.env == Some(Saved(old(obj.env), prop.id, ts))
        && storage.items == old(storage.items)[id := Rec(obj.payload, Some(Written(old(obj.env), prop.id, ts)))]
        && storage.keys == if id in old(storage.items) then old(storage.keys) else old(storage.keys) + [id]
    {
      if obj.tag != clazz {
        return Err(TypeMismatch);
      }
      var e := Stamp(obj.env, prop.id, ts);
      obj.env := Some(e);
      if e.id.None? {
        return Err(NoId);
      }
      var id := e.id.value;
      obj.env := Some(Strip(e));
      SaveToStore(id, obj);
      obj.env := Some(Restore(Strip(e)));
      r := Ok(id);
    }

    /** `saveToStore`: write the object's JSON under `id`. */
    method SaveToStore(id: string, obj: Item)
      requires storage.Valid()
      modifies storage
      ensures storage.Valid()
      ensures storage.items == old(storage.items)[id := Rec(obj.payload, obj.env)]
      ensures storage.keys == if id in old(storage.items) then old(storage.keys) else old(storage.keys) + [id]
    {
      storage.SetItem(id, Rec(obj.payload, obj.env));
    }

    /** `retrieveFromStore`: the decoded value under `id`, or null. */
    function RetrieveFromStore(id: string): (r: Option<Rec>)
      reads storage
      ensures r.Some? <==> id in storage.items
      ensures r.Some? ==> r.value == storage.items[id]
    {
      storage.GetItem(id)
    }

    /** `removeFromStore`: delete the entry under `id`. */
    method RemoveFromStore(id: string)
      requires storage.Valid()
      modifies storage
      ensures storage.Valid()
      ensures storage.items == old(storage.items) - {id}
      ensures storage.keys == Without(old(storage.keys), id)
    {
      storage.RemoveItem(id);
    }

    /**
     * `retrieve(id)`: null for an absent id; otherwise a new object of the
     * store's type with the stored fields and its `Date`s rebuilt.
     */
    method Retrieve(id: string) returns (r: Result<Option<Item>, Error>)
      requires storage.Valid()
      ensures id !in storage.items ==> r == Ok(None)
      ensures id in storage.items ==>
        match DecodeRec(storage.items[id], clazz)
        case Err(e) => r == Err(e)
        case Ok(v) => r.Ok? && r.value.Some? && fresh(r.value.value) && r.value.value.AsView() == v
    {
      var rec := RetrieveFromStore(id);
      if rec.None? {
        return Ok(None);
      }
      var v := DecodeRec(rec.value, clazz);
      if v.Err? {
        return Err(v.error);
      }
      var obj := new Item.FromView(v.value);
      r := Ok(Some(obj));
    }

    /**
     * `remove(item)`: an id string must pass the id check, an object must be
     * of the store's type (else nothing happens); the entry under the
     * envelope's id is deleted and the object is returned without envelope.
     */
    method Remove(item: Target) returns (r: Result<Option<Item>, Error>)
      requires storage.Valid()
      modifies storage, if item.ByObject? then {item.obj} else {}
      ensures storage.Valid()
      ensures item.ById? && !ValidRemoveId(prop.id, item.id) ==> r == Err(InvalidKey) && unchanged(storage)
      ensures item.ById? && ValidRemoveId(prop.id, item.id) && item.id !in old(storage.items) ==>
        r == Ok(None) && unchanged(storage)
      ensures item.ById? && ValidRemoveId(prop.id, item.id) && item.id in old(storage.items) ==>
        var rec := old(storage.items)[item.id];
        match rec.env
        case None => r == Err(MissingEnvelope) && unchanged(storage)
        case Some(e) =>
          && r.Ok? && r.value.Some? && fresh(r.value.value)
          && r.value.value.AsView() == View(clazz, rec.payload, None)
          && storage.items == old(storage.items) - {KeyOf(e.id)}
          && storage.keys == Without(old(storage.keys), KeyOf(e.id))
      ensures item.ByObject? && old(item.obj.tag) != clazz ==> r == Ok(None) && unchanged(storage, item.obj)
      ensures item.ByObject? && old(item.obj.tag) == clazz ==>
        match old(item.obj.env)
        case None => r == Err(MissingEnvelope) && unchanged(storage, item.obj)
        case Some(e) =>
          && r == Ok(Some(item.obj))
          && item.obj.AsView() == View(clazz, old(item.obj.payload), None)
          && storage.items == old(storage.items) - {KeyOf(e.id)}
          && storage.keys == Without(old(storage.keys), KeyOf(e.id))
    {
      var obj: Item;
      if item.ById? {
        if !ValidRemoveId(prop.id, item.id) {
          return Err(InvalidKey);
        }
        var found := Retrieve(item.id);
        if found.Err? {
          return Err(found.error);
        }
        if found.value.None? {
          return Ok(None);
        }
        obj := found.value.value;
      } else {
        if item.obj.tag != clazz {
          return Ok(None);
        }
        obj := item.obj;
      }
      if obj.env.None? {
        return Err(MissingEnvelope);
      }
      RemoveFromStore(KeyOf(obj.env.value.id));
      obj.env := None;
      r := Ok(Some(obj));
    }

    /** The loop of `list`: retrieve every member key, in scan order. */
    method Scan() returns (r: Result<seq<Item>, Error>)
      requires storage.Valid()
      ensures r.Err? <==> !Decodable(Members(storage.keys, prop.id), storage.items)
      ensures r.Ok? ==> Views(r.value) == DecodeAll(Members(storage.keys, prop.id), storage.items, clazz)
    {
      var found: seq<Item> := [];
      var len := storage.Length();
      ghost var keys := storage.keys;
      ghost var ks: seq<string> := [];
      for idx := 0 to len
        invariant ks == Members(keys[..idx], prop.id)
        invariant Decodable(ks, storage.items)
        invariant Views(found) == DecodeAll(ks, storage.items, clazz)
      {
        var key := storage.Key(idx).value;
        MembersStep(keys, idx, prop.id);
        var step := Visit(key, found, ks);
        if step.Err? {
          IndexOfZeroIsPrefix(key, prop.id);
          MemberNotDecodable(keys, storage.items, prop.id, key);
          return Err(step.error);
        }
        found := step.value;
        ks := Members(keys[..idx + 1], prop.id);
      }
      assert keys[..len] == keys;
      r := Ok(found);
    }

    /** One turn of the loop of `list`: retrieve `key` when it is a member. */
    method Visit(key: string, found: seq<Item>, ghost ks: seq<string>) returns (r: Result<seq<Item>, Error>)
      requires storage.Valid() && key in storage.items
      requires Decodable(ks, storage.items) && Views(found) == DecodeAll(ks, storage.items, clazz)
      ensures r.Err? <==> IsMember(key, prop.id) && storage.items[key].env.None?
      ensures r.Ok? ==>
        var next := ks + if IsMember(key, prop.id) then [key] else [];
        Decodable(next, storage.items) && Views(r.value) == DecodeAll(next, storage.items, clazz)
    {
      if !IsMember(key, prop.id) {
        assert ks + [] == ks;
        return Ok(found);
      }
      var o := Retrieve(key);
      if o.Err? {
        return Err(o.error);
      }
      var item := o.value.value;
      DecodeAllSnoc(ks, key, storage.items, clazz);
      ViewsSnoc(found, item);
      r := Ok(found + [item]);
    }

    /**
     * `list(options)`: retrieve every member key in scan order, then sort
     * when `orderBy` is given.
     */
    method List(opts: ListOptions) returns (r: Result<seq<Item>, Error>)
      requires storage.Valid()
      ensures var spec := ListSpec(storage.keys, storage.items, prop.id, clazz, opts);
        && (r.Err? <==> spec.Err?)
        && (r.Ok? ==> Views(r.value) == spec.value)
    {
      var scanned := Scan();
      if scanned.Err? {
        return Err(scanned.error);
      }
      var found := scanned.value;
      var sorter := SorterFor(opts);
      if sorter.None? {
        r := Ok(found);
      } else {
        var sorted := SortItems(found, sorter.value);
        r := Ok(sorted);
      }
    }

    /** `Sorter.prototype.sort`, applied to fresh objects by their values. */
    static method SortItems(found: seq<Item>, s: Sorter) returns (sorted: seq<Item>)
      ensures Views(sorted) == Sort(Views(found), Cmp(s))
    {
      var pairs := Decorated(found);
      assert Coherent(pairs);
      assert MapSeq(pairs, Fst) == Views(found);
      var ordered := Sort(pairs, PairCmp(s));
      CoherentPermutation(ordered, pairs);
      sorted := MapSeq(ordered, Snd);
      CoherentViews(ordered);
      PairCmpProjects(s);
      SortProject(pairs, Fst, PairCmp(s), Cmp(s));
    }

    /** `count()`: the length of the unsorted list. */
    method Count() returns (r: Result<nat, Error>)
      requires storage.Valid()
      ensures r.Err? <==> !Decodable(Members(storage.keys, prop.id), storage.items)
      ensures r.Ok? ==> r.value == |Members(storage.keys, prop.id)|
    {
      var l := List(ListOptions(None, None));
      if l.Err? {
        return Err(l.error);
      }
      r := Ok(|l.value|);
    }

    /**
     * The loop of `clear` over the names `names`: delete every accepted
     * name from the backend and count them.
     */
    method ClearNames(names: seq<string>) returns (count: nat)
      requires storage.Valid()
      modifies storage
      ensures storage.Valid()
      ensures (storage.items, count) == ClearSpec(names, old(storage.items), prop.id)
      ensures storage.keys == WithoutAll(old(storage.keys), MemberSet(names, prop.id))
    {
      count := 0;
      ghost var keys0, items0 := storage.keys, storage.items;
      ghost var gone: set<string> := {};
      assert MemberSet(names[..0], prop.id) == {};
      WithoutNothing(keys0);
      for i := 0 to |names|
        invariant storage.Valid()
        invariant gone == MemberSet(names[..i], prop.id)
        invariant storage.items == items0 - gone
        invariant storage.keys == WithoutAll(keys0, gone)
        invariant count == |Members(names[..i], prop.id)|
      {
        var itemId := names[i];
        MemberSetStep(names, i, prop.id);
        MembersStep(names, i, prop.id);
        if IsMember(itemId, prop.id) {
          RemoveMember(itemId, keys0, items0, gone);
          gone := gone + {itemId};
          count := count + 1;
        }
      }
      assert names[..|names|] == names;
    }

    /** One turn of the loop of `clear` on an accepted name, after the names `gone`. */
    method RemoveMember(itemId: string, ghost keys0: seq<string>, ghost items0: map<string, Rec>,
                        ghost gone: set<string>)
      requires storage.Valid()
      requires storage.items == items0 - gone && storage.keys == WithoutAll(keys0, gone)
      modifies storage
      ensures storage.Valid()
      ensures storage.items == items0 - (gone + {itemId})
      ensures storage.keys == WithoutAll(keys0, gone + {itemId})
    {
      WithoutAllStep(keys0, gone, itemId);
      RemoveFromStore(itemId);
    }

    /**
     * `clear()` as intended: run the loop over the backend's own keys. The
     * member keys leave in one sweep, the other keys keep their order, and
     * no member is left.
     */
    method Clear() returns (count: nat)
      requires storage.Valid()
      modifies storage
      ensures storage.Valid()
      ensures (storage.items, count) == ClearSpec(old(storage.keys), old(storage.items), prop.id)
      ensures storage.keys == WithoutAll(old(storage.keys), MemberSet(old(storage.keys), prop.id))
      ensures Members(storage.keys, prop.id) == []
    {
      count := ClearNames(storage.keys);
      NoMembers(storage.keys, prop.id);
    }

    /**
     * `clear()` as written: the loop runs over the global `Storage` object's
     * names, so the backend, keys included, stays as it was.
     */
    method ClearAsWritten() returns (count: nat)
      requires storage.Valid()
      modifies storage
      ensures storage.Valid()
      ensures (storage.items, count) == ClearSpec(HostStorageNames, old(storage.items), prop.id)
      ensures storage.keys == old(storage.keys)
    {
      count := ClearNames(HostStorageNames);
      assert MemberSet(HostStorageNames, prop.id) == {};
      WithoutNothing(old(storage.keys));
    }
  }

  /** The comparator on objects paired with their values. */
  function PairCmp(s: Sorter): (r: ((View, Item), (View, Item)) -> bool) {
    (p: (View, Item), q: (View, Item)) => Compare(s, p.0, q.0)
  }

  lemma PairCmpProjects(s: Sorter)
    ensures forall p, q :: PairCmp(s)(p, q) == Cmp(s)(Fst(p), Fst(q))
  {
  }

  /** A member key whose value has no envelope makes the whole scan fail. */
  lemma MemberNotDecodable(keys: seq<string>, items: map<string, Rec>, propId: string, key: string)
    requires key in keys && StartsWith(key, propId)
    requires key in items && items[key].env.None?
    ensures !Decodable(Members(keys, propId), items)
  {
  }

  /** `SHFacFac(window, ns).createStore(clazz)` over an empty backend. */
  method NewStore(ns: string, clazz: string) returns (s: Store)
    ensures fresh(s) && fresh(s.storage)
    ensures s.clazz == clazz && s.prop == PropsFor(StorePrefix(FactoryPrefix(ns), Lower(clazz)))
    ensures s.storage.Valid() && s.storage.keys == [] && s.storage.items == map[]
  {
    var backend := new Backend();
    var factory := new Factory(ns);
    s := factory.CreateStore(clazz, map[], backend);
  }

  /**
   * The store scenario of the test suite (tests/qUnit/tests.js:96-105), for
   * any namespace (the suite uses `qUnit-test`): a store for `Apa` over an
   * empty backend counts 0, storing one object
   * returns a string id and makes the count 1, and retrieving that id gives
   * back an `Apa` with the stored fields.
   */
  method StoreScenario(ns: string, ts: nat) returns (before: Result<nat, Error>, id: Result<string, Error>,
                                         after: Result<nat, Error>, back: Result<Option<Item>, Error>)
    ensures before == Ok(0)
    ensures id.Ok? && after == Ok(1)
    ensures back.Ok? && back.value.Some?
    ensures back.value.value.tag == "Apa" && back.value.value.payload == map["name" := Str("Ola"), "age" := Num(28)]
  {
    var apor := NewStore(ns, "Apa");
    var backend := apor.storage;
    before := apor.Count();
    var ola := new Item("Apa", map["name" := Str("Ola"), "age" := Num(28)]);
    id := apor.Save(ola, ts);
    var key := apor.prop.id + "-" + Hex(ts);
    MintedIdAlone(apor.prop.id, ts);
    assert id == Ok(key) && backend.keys == [key];
    assert backend.items[key].env.Some?;
    assert Decodable(Members(backend.keys, apor.prop.id), backend.items);
    after := apor.Count();
    back := apor.Retrieve(key);
  }
}
