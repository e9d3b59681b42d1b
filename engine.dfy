/**
 * The store engine's data and its pure logic, common to both copies of the
 * library: key derivation, the metadata envelope and its lifecycle, the
 * check on ids given to `remove`, the scan filter and the comparator built by
 * `Sorter`.
 */
module Engine {
  import opened Wrappers
  import opened Text
  import opened HexCodec
  import opened Sorting

  // ---------------------------------------------------------------- data

  /** A plain JSON value held in an object's own fields. */
  datatype Value = Num(n: int) | Str(s: string)

  /** A `Date`: a millisecond time, or the invalid date `new Date(NaN)`. */
  datatype DateValue = Time(ms: nat) | InvalidDate

  /**
   * The metadata record kept under the namespace property of a stored
   * object: the id and the two hexadecimal stamps, plus the two `Date`s
   * rebuilt from the stamps whenever the object is in memory. Any field may
   * be missing when the record was not made by `store`.
   */
  datatype Envelope = Envelope(
    id: Option<string>,
    created: Option<string>,
    saved: Option<string>,
    createdDate: Option<DateValue>,
    savedDate: Option<DateValue>)

  /** A decoded backend value: an untyped JSON object. */
  datatype Rec = Rec(payload: map<string, Value>, env: Option<Envelope>)

  /** The value of an in-memory object: its type tag, its fields and its envelope. */
  datatype View = View(tag: string, payload: map<string, Value>, env: Option<Envelope>)

  /** The errors the store raises (`barf`), by kind. */
  datatype Error =
    | TypeMismatch      // object of another type given to `store`
    | NoId              // an envelope without an id given to `store`
    | InvalidKey        // malformed id string given to `remove`
    | MissingEnvelope   // reading an envelope field of an object that has none (a TypeError)

  /** A value of the options object given when a store is created. */
  datatype Setting = StrSetting(s: string) | BoolSetting(b: bool)

  // ------------------------------------------------------ key derivation

  /** The factory function's own name, which both copies lower-case into every key. */
  const ModuleName := "SHFacFac"

  /** `factoryPrefix`: what `getPrefix()` returns. */
  function FactoryPrefix(ns: string): (r: string) {
    "_" + Lower(ModuleName) + "_" + Lower(ns) + "_"
  }

  /** The factory prefix spelled out. */
  lemma FactoryPrefixSpelled(ns: string)
    ensures FactoryPrefix(ns) == "_shfacfac_" + Lower(ns) + "_"
  {
  }

  /** A store's `PREFIX`: the factory prefix, the store's prefix option and a '-'. */
  function StorePrefix(factoryPrefix: string, prefix: string): (r: string) {
    factoryPrefix + prefix + "-"
  }

  /** The name of the property that holds an object's envelope. */
  function DataNS(ns: string): (r: string) {
    "_" + ns + "-data"
  }

  /** The store's `prop` record of key names. */
  datatype Props = Props(id: string, created: string, saved: string)

  function PropsFor(prefix: string): (p: Props)
    ensures StartsWith(p.id, prefix) && StartsWith(p.created, prefix) && StartsWith(p.saved, prefix)
    ensures p.id[|prefix|..] == "id" && p.created[|prefix|..] == "createdDate" && p.saved[|prefix|..] == "savedDate"
  {
    Props(prefix + "id", prefix + "createdDate", prefix + "savedDate")
  }

  /**
   * Every id a store mints begins with its factory's prefix, so a scan for
   * `getPrefix()` finds every entry of every store of that factory.
   */
  lemma MintedIdUnderFactoryPrefix(ns: string, prefix: string, ts: nat)
    ensures StartsWith(PropsFor(StorePrefix(FactoryPrefix(ns), prefix)).id + "-" + Hex(ts), FactoryPrefix(ns))
  {
  }

  // ------------------------------------------------------------- options

  /** `'' + v`: a setting as it is concatenated into a key. */
  function SettingText(v: Setting): (r: string) {
    match v
    case StrSetting(s) => s
    case BoolSetting(b) => if b then "true" else "false"
  }

  /** JavaScript truthiness of a setting. */
  predicate Truthy(v: Setting) {
    match v
    case StrSetting(s) => s != ""
    case BoolSetting(b) => b
  }

  /** The `defaultOptions` object, in its property order. */
  function Defaults(clazzName: string): (r: seq<(string, Setting)>) {
    [("prefix", StrSetting(Lower(clazzName))), ("session", BoolSetting(false))]
  }

  /**
   * The loop `for (p in defaultOptions) if (!(p in options)) options[p] = ...`:
   * every supplied option is kept and every missing one gets its default.
   */
  method ApplyDefaults(options: map<string, Setting>, defaults: seq<(string, Setting)>)
    returns (r: map<string, Setting>)
    requires forall i, j | 0 <= i < j < |defaults| :: defaults[i].0 != defaults[j].0
    ensures forall k | k in options :: k in r && r[k] == options[k]
    ensures forall i | 0 <= i < |defaults| && defaults[i].0 !in options ::
      defaults[i].0 in r && r[defaults[i].0] == defaults[i].1
    ensures forall k | k in r :: k in options || exists i | 0 <= i < |defaults| :: defaults[i].0 == k
  {
    r := options;
    for n := 0 to |defaults|
      invariant forall k | k in options :: k in r && r[k] == options[k]
      invariant forall i | 0 <= i < n && defaults[i].0 !in options ::
        defaults[i].0 in r && r[defaults[i].0] == defaults[i].1
      invariant forall k | k in r :: k in options || exists i | 0 <= i < n :: defaults[i].0 == k
      invariant forall i | n <= i < |defaults| :: defaults[i].0 in r ==> defaults[i].0 in options
    {
      var (p, v) := defaults[n];
      if p !in r {
        r := r[p := v];
      }
    }
  }

  /** The prefix option a store ends up with. */
  function ChosenPrefix(options: map<string, Setting>, clazzName: string): (r: string) {
    if "prefix" in options then SettingText(options["prefix"]) else Lower(clazzName)
  }

  /** The session option a store ends up with. */
  predicate ChosenSession(options: map<string, Setting>) {
    "session" in options && Truthy(options["session"])
  }

  // ------------------------------------------------------------ envelope

  /** `new Date(parseInt(stamp, 16))`; a missing stamp parses as NaN. */
  function DateOf(stamp: Option<string>): (r: DateValue) {
    match stamp
    case None => InvalidDate
    case Some(s) => match ParseHex(s) case Some(ms) => Time(ms) case None => InvalidDate
  }

  /** The envelope `store` builds for an id prefix and a time, before any `Date` is attached. */
  function Mint(propId: string, ts: nat): (r: Envelope) {
    Envelope(Some(propId + "-" + Hex(ts)), Some(Hex(ts)), Some(Hex(ts)), None, None)
  }

  /** `store`, first step: mint an envelope, or refresh the `saved` stamp of the present one. */
  function Stamp(env: Option<Envelope>, propId: string, ts: nat): (r: Envelope)
    ensures r.saved == Some(Hex(ts))
    ensures env.None? ==> r.id == Some(propId + "-" + Hex(ts)) && r.created == Some(Hex(ts))
    ensures env.Some? ==> r.id == env.value.id && r.created == env.value.created
  {
    match env
    case None => Mint(propId, ts)
    case Some(e) => e.(saved := Some(Hex(ts)))
  }

  /** The envelope without its `Date`s, as it is written to the backend. */
  function Strip(e: Envelope): (r: Envelope) {
    e.(createdDate := None, savedDate := None)
  }

  /** The envelope with its `Date`s rebuilt from the stamps. */
  function Restore(e: Envelope): (r: Envelope) {
    e.(createdDate := Some(DateOf(e.created)), savedDate := Some(DateOf(e.saved)))
  }

  /** The envelope `store` writes to the backend. */
  function Written(env: Option<Envelope>, propId: string, ts: nat): (r: Envelope) {
    Strip(Stamp(env, propId, ts))
  }

  /** The envelope an object carries after `store` returns. */
  function Saved(env: Option<Envelope>, propId: string, ts: nat): (r: Envelope) {
    Restore(Written(env, propId, ts))
  }

  /**
   * First save: the id is the id prefix, '-' and the hexadecimal time, both
   * stamps are that time in hexadecimal, and both `Date`s are the time itself.
   */
  lemma FirstSave(propId: string, ts: nat)
    ensures Saved(None, propId, ts)
      == Envelope(Some(propId + "-" + Hex(ts)), Some(Hex(ts)), Some(Hex(ts)), Some(Time(ts)), Some(Time(ts)))
    ensures Written(None, propId, ts) == Mint(propId, ts)
  {
    ParseHexOfHex(ts);
  }

  /** A re-save keeps the id and the creation stamp and moves only the `saved` stamp. */
  lemma ReSave(e: Envelope, propId: string, ts: nat)
    ensures Saved(Some(e), propId, ts)
      == Envelope(e.id, e.created, Some(Hex(ts)), Some(DateOf(e.created)), Some(Time(ts)))
  {
    ParseHexOfHex(ts);
  }

  /**
   * Saving an object at `t0` and again at `t1`: it keeps the first id, its
   * creation date stays `t0` and its saved date becomes `t1`.
   */
  lemma SaveTwice(propId: string, t0: nat, t1: nat)
    ensures var e := Saved(Some(Saved(None, propId, t0)), propId, t1);
      && e.id == Some(propId + "-" + Hex(t0))
      && e.createdDate == Some(Time(t0))
      && e.savedDate == Some(Time(t1))
  {
    FirstSave(propId, t0);
    ReSave(Saved(None, propId, t0), propId, t1);
  }

  /** What `info(obj, prop)` returns. */
  datatype Field = Undefined | IdText(s: string) | DateField(d: DateValue)

  /** `{id: e.id, created: e.createdDate, saved: e.savedDate}[prop]`. */
  function InfoOf(e: Envelope, prop: string): (r: Field) {
    if prop == "id" then (match e.id case Some(s) => IdText(s) case None => Undefined)
    else if prop == "created" then (match e.createdDate case Some(d) => DateField(d) case None => Undefined)
    else if prop == "saved" then (match e.savedDate case Some(d) => DateField(d) case None => Undefined)
    else Undefined
  }

  // ------------------------------------------------------------ retrieve

  /** `retrieve` of a present value: rebuild the `Date`s and give it the store's type. */
  function DecodeRec(rec: Rec, clazz: string): (r: Result<View, Error>)
    ensures r.Err? <==> rec.env.None?
    ensures r.Ok? ==> r.value.tag == clazz && r.value.payload == rec.payload
    ensures r.Ok? ==> r.value.env == Some(Restore(rec.env.value))
  {
    match rec.env
    case None => Err(MissingEnvelope)
    case Some(e) => Ok(View(clazz, rec.payload, Some(Restore(e))))
  }

  /**
   * What a store reads back for the id `store` returned, on a first save or
   * a re-save: an object of the store's type with the saved fields, the same
   * envelope the saved object carries, `info(_, "id")` equal to the returned
   * id and `info(_, "saved")` the time of this save. A first save also dates
   * the creation at that time.
   */
  lemma RetrieveAfterSave(payload: map<string, Value>, env: Option<Envelope>, propId: string, ts: nat, clazz: string)
    requires Stamp(env, propId, ts).id.Some?
    ensures DecodeRec(Rec(payload, Some(Written(env, propId, ts))), clazz)
      == Ok(View(clazz, payload, Some(Saved(env, propId, ts))))
    ensures InfoOf(Saved(env, propId, ts), "id") == IdText(Stamp(env, propId, ts).id.value)
    ensures InfoOf(Saved(env, propId, ts), "saved") == DateField(Time(ts))
    ensures env.None? ==> InfoOf(Saved(env, propId, ts), "id") == IdText(propId + "-" + Hex(ts))
    ensures env.None? ==> InfoOf(Saved(env, propId, ts), "created") == DateField(Time(ts))
  {
    ParseHexOfHex(ts);
  }

  // -------------------------------------------------------------- remove

  /** The check `remove` makes of a string id: `item.replace(prop.id, '').charAt(0) === '-'`. */
  predicate ValidRemoveId(propId: string, s: string) {
    var c := ReplaceFirst(s, propId);
    |c| > 0 && c[0] == '-'
  }

  /** When the id prefix starts the string, what follows it must start with '-'. */
  lemma RemoveIdAfterPrefix(propId: string, t: string)
    ensures ValidRemoveId(propId, propId + t) <==> |t| > 0 && t[0] == '-'
  {
  }

  /**
   * Otherwise, whether or not the id prefix occurs later on, the check
   * passes exactly when the string itself starts with '-'.
   */
  lemma RemoveIdElsewhere(propId: string, s: string)
    requires FirstIndex(s, propId) != Some(0)
    ensures ValidRemoveId(propId, s) <==> |s| > 0 && s[0] == '-'
  {
  }

  /** Every id that `store` mints passes the check. */
  lemma MintedIdRemovable(propId: string, ts: nat)
    ensures ValidRemoveId(propId, propId + "-" + Hex(ts))
  {
  }

  /** The bare id prefix is rejected. */
  lemma PropIdRejected(propId: string)
    ensures !ValidRemoveId(propId, propId)
  {
  }

  /** The key `removeItem(obj[NS].id)` deletes: a missing id is the string "undefined". */
  function KeyOf(id: Option<string>): (r: string) {
    match id case Some(s) => s case None => "undefined"
  }

  // ---------------------------------------------------------------- scan

  /** `key.indexOf(prop.id) === 0`: the scan's membership test. */
  predicate IsMember(key: string, propId: string) {
    FirstIndex(key, propId) == Some(0)
  }

  /** The backend keys a scan keeps, in scan order. */
  function Members(keys: seq<string>, propId: string): (r: seq<string>)
    ensures forall k :: k in r <==> k in keys && StartsWith(k, propId)
    ensures |r| <= |keys|
  {
    if keys == [] then []
    else
      var k := keys[|keys| - 1];
      IndexOfZeroIsPrefix(k, propId);
      assert keys == keys[..|keys| - 1] + [k];
      Members(keys[..|keys| - 1], propId) + (if IsMember(k, propId) then [k] else [])
  }

  /** Every id this store minted that is in the backend is found by the scan. */
  lemma MintedIdListed(keys: seq<string>, propId: string, ts: nat)
    requires propId + "-" + Hex(ts) in keys
    ensures propId + "-" + Hex(ts) in Members(keys, propId)
  {
  }

  /** A backend holding one minted id has exactly that member. */
  lemma MintedIdAlone(propId: string, ts: nat)
    ensures Members([propId + "-" + Hex(ts)], propId) == [propId + "-" + Hex(ts)]
  {
  }

  /** Every member key can be decoded (each has an envelope). */
  predicate Decodable(keys: seq<string>, items: map<string, Rec>) {
    forall i | 0 <= i < |keys| :: keys[i] in items && items[keys[i]].env.Some?
  }

  /** The objects `retrieve` gives for the member keys, in scan order. */
  function DecodeAll(keys: seq<string>, items: map<string, Rec>, clazz: string): (r: seq<View>)
    requires Decodable(keys, items)
    ensures |r| == |keys|
    ensures forall i | 0 <= i < |keys| :: DecodeRec(items[keys[i]], clazz) == Ok(r[i])
  {
    seq(|keys|, i requires 0 <= i < |keys| => DecodeRec(items[keys[i]], clazz).value)
  }

  /** One more scanned key extends the members by that key exactly when it is a member. */
  lemma MembersSnoc(keys: seq<string>, k: string, propId: string)
    ensures Members(keys + [k], propId) == Members(keys, propId) + (if IsMember(k, propId) then [k] else [])
  {
  }

  /** The members among the first `idx + 1` keys, from those among the first `idx`. */
  lemma MembersStep(keys: seq<string>, idx: nat, propId: string)
    requires idx < |keys|
    ensures Members(keys[..idx + 1], propId)
      == Members(keys[..idx], propId) + (if IsMember(keys[idx], propId) then [keys[idx]] else [])
  {
    assert keys[..idx + 1] == keys[..idx] + [keys[idx]];
    MembersSnoc(keys[..idx], keys[idx], propId);
  }

  /** Decoding one more member appends its object. */
  lemma DecodeAllSnoc(ks: seq<string>, k: string, items: map<string, Rec>, clazz: string)
    requires Decodable(ks, items) && k in items && items[k].env.Some?
    ensures Decodable(ks + [k], items)
    ensures DecodeAll(ks + [k], items, clazz) == DecodeAll(ks, items, clazz) + [DecodeRec(items[k], clazz).value]
  {
  }

  // -------------------------------------------------------------- sorter

  /** The options `list` accepts; an absent `options` object is `ListOptions(None, None)`. */
  datatype ListOptions = ListOptions(orderBy: Option<string>, dir: Option<string>)

  /** A `Sorter`: the field, the direction and whether the field lives in the envelope. */
  datatype Sorter = Sorter(orderBy: string, desc: bool, scoped: bool)

  /** `orderBy in this.prop`: the field names of the envelope. */
  predicate InProps(name: string) {
    name == "id" || name == "created" || name == "saved"
  }

  /** The sorter `list` builds, if it sorts at all (`options && options.orderBy`). */
  function SorterFor(opts: ListOptions): (r: Option<Sorter>)
    ensures r.Some? <==> opts.orderBy.Some? && opts.orderBy.value != ""
    ensures r.Some? ==> r.value.orderBy == opts.orderBy.value
    ensures r.Some? ==> (r.value.desc <==> opts.dir == Some("desc"))
    ensures r.Some? ==> (r.value.scoped <==> InProps(opts.orderBy.value))
  {
    match opts.orderBy
    case Some(o) =>
      if o == "" then None else Some(Sorter(o, opts.dir == Some("desc"), InProps(o)))
    case None => None
  }

  function StrOf(s: Option<string>): (r: Option<Value>) {
    match s case Some(t) => Some(Str(t)) case None => None
  }

  /** `o[orderBy]`, or `o[NS][orderBy]` for an envelope field; None is `undefined`. */
  function FieldOf(s: Sorter, v: View): (r: Option<Value>)
    ensures s.scoped && r.Some? ==> v.env.Some? && r.value.Str?
    ensures !s.scoped ==> (r.Some? <==> s.orderBy in v.payload)
  {
    if s.scoped then
      match v.env
      case None => None
      case Some(e) =>
        if s.orderBy == "id" then StrOf(e.id)
        else if s.orderBy == "created" then StrOf(e.created)
        else if s.orderBy == "saved" then StrOf(e.saved)
        else None
    else if s.orderBy in v.payload then Some(v.payload[s.orderBy])
    else None
  }

  /** JavaScript's `v1 > v2` on two field values. */
  predicate Greater(a: Option<Value>, b: Option<Value>)
    ensures Greater(a, b) ==> a.Some? && b.Some? && (a.value.Num? <==> b.value.Num?)
  {
    match (a, b)
    case (Some(Num(x)), Some(Num(y))) => x > y
    case (Some(Str(x)), Some(Str(y))) => LexGreater(x, y)
    case _ => false
  }

  /** The comparator: swap when descending, read the field, compare with `>`. */
  predicate Compare(s: Sorter, o1: View, o2: View)
    ensures Compare(s, o1, o2) ==> FieldOf(s, o1).Some? && FieldOf(s, o2).Some?
  {
    var (a, b) := if s.desc then (o2, o1) else (o1, o2);
    Greater(FieldOf(s, a), FieldOf(s, b))
  }

  /** The comparator as the function value handed to the sort. */
  function Cmp(s: Sorter): (r: (View, View) -> bool) {
    (a, b) => Compare(s, a, b)
  }

  /** The list `list(opts)` returns, or the error it raises. */
  function ListSpec(keys: seq<string>, items: map<string, Rec>, propId: string, clazz: string,
                    opts: ListOptions): (r: Result<seq<View>, Error>)
    requires forall k | k in keys :: k in items
    ensures r.Err? <==> !Decodable(Members(keys, propId), items)
    ensures r.Ok? ==> multiset(r.value) == multiset(DecodeAll(Members(keys, propId), items, clazz))
  {
    var ks := Members(keys, propId);
    if !Decodable(ks, items) then Err(MissingEnvelope)
    else
      var vs := DecodeAll(ks, items, clazz);
      match SorterFor(opts)
      case None => Ok(vs)
      case Some(s) => Ok(Sort(vs, Cmp(s)))
  }

  /** Without `orderBy` the list is the members, decoded, in scan order. */
  lemma ListUnorderedInScanOrder(keys: seq<string>, items: map<string, Rec>, propId: string,
                                 clazz: string, opts: ListOptions)
    requires forall k | k in keys :: k in items
    requires SorterFor(opts).None?
    requires Decodable(Members(keys, propId), items)
    ensures ListSpec(keys, items, propId, clazz, opts) == Ok(DecodeAll(Members(keys, propId), items, clazz))
  {
  }

  /** The two field values are of one kind: both numbers, or both strings. */
  ghost predicate Comparable(s: Sorter, vs: seq<View>) {
    || (forall i | 0 <= i < |vs| :: FieldOf(s, vs[i]).Some? && FieldOf(s, vs[i]).value.Num?)
    || (forall i | 0 <= i < |vs| :: FieldOf(s, vs[i]).Some? && FieldOf(s, vs[i]).value.Str?)
  }

  ghost function Elements<T>(s: seq<T>): (r: set<T>) {
    set i | 0 <= i < |s| :: s[i]
  }

  lemma ElementsAllIn<T>(s: seq<T>)
    ensures AllIn(s, Elements(s))
  {
  }

  lemma GreaterTransitive(a: Option<Value>, b: Option<Value>, c: Option<Value>)
    requires Greater(a, b) && Greater(b, c)
    ensures Greater(a, c)
  {
    if a.Some? && a.value.Str? { LexTransitive(a.value.s, b.value.s, c.value.s); }
  }

  lemma GreaterIrreflexive(a: Option<Value>)
    ensures !Greater(a, a)
  {
    if a.Some? && a.value.Str? { LexIrreflexive(a.value.s); }
  }

  /** `>` on field values is a strict order, whatever the values. */
  lemma CompareStrict(s: Sorter, d: set<View>)
    ensures StrictOrder(Cmp(s), d)
  {
    forall a | a in d ensures !Cmp(s)(a, a) { GreaterIrreflexive(FieldOf(s, a)); }
    forall a, b, c | a in d && b in d && c in d && Cmp(s)(a, b) && Cmp(s)(b, c)
      ensures Cmp(s)(a, c)
    {
      if s.desc {
        GreaterTransitive(FieldOf(s, c), FieldOf(s, b), FieldOf(s, a));
      } else {
        GreaterTransitive(FieldOf(s, a), FieldOf(s, b), FieldOf(s, c));
      }
    }
  }

  /** On values of one kind, "not greater" is transitive too, and ties are equal values. */
  lemma GreaterTotal(a: Option<Value>, b: Option<Value>)
    requires a.Some? && b.Some? && (a.value.Num? == b.value.Num?)
    ensures !Greater(a, b) && !Greater(b, a) <==> a == b
  {
    if a.value.Str? && a != b { LexTotal(a.value.s, b.value.s); }
    if a == b { GreaterIrreflexive(a); }
  }

  lemma CompareWeak(s: Sorter, vs: seq<View>)
    requires Comparable(s, vs)
    ensures WeakOrder(Cmp(s), Elements(vs))
  {
    var d := Elements(vs);
    CompareStrict(s, d);
    forall a, b, c | a in d && b in d && c in d && !Cmp(s)(a, b) && !Cmp(s)(b, c)
      ensures !Cmp(s)(a, c)
    {
      var fa, fb, fc := FieldOf(s, a), FieldOf(s, b), FieldOf(s, c);
      GreaterTotal(fa, fb);
      GreaterTotal(fb, fc);
      if Cmp(s)(a, c) {
        if s.desc {
          if fa != fb { GreaterTransitive(fc, fa, fb); } 
        } else {
          if fa != fb { GreaterTransitive(fb, fa, fc); }
        }
      }
    }
  }

  /**
   * `list` with `orderBy`: a permutation of the scanned objects in which no
   * object is followed by one whose field it exceeds (ascending), or by one
   * whose field exceeds its own (descending, exactly when `dir` is "desc").
   */
  lemma SortedByField(s: Sorter, vs: seq<View>)
    ensures var r := Sort(vs, Cmp(s));
      && multiset(r) == multiset(vs)
      && (!s.desc ==> forall i, j | 0 <= i < j < |r| :: !Greater(FieldOf(s, r[i]), FieldOf(s, r[j])))
      && (s.desc ==> forall i, j | 0 <= i < j < |r| :: !Greater(FieldOf(s, r[j]), FieldOf(s, r[i])))
  {
    CompareStrict(s, Elements(vs));
    ElementsAllIn(vs);
    SortSorted(vs, Cmp(s), Elements(vs));
    var r := Sort(vs, Cmp(s));
    forall i, j | 0 <= i < j < |r| ensures !Cmp(s)(r[i], r[j]) { }
  }

  /** The objects of `vs` whose sort field holds `k`, in order. */
  function WithField(s: Sorter, vs: seq<View>, k: Option<Value>): (r: seq<View>) {
    Filter(vs, v => FieldOf(s, v) == k)
  }

  /** The comparator reads the sort field alone, so objects with one field value are alike to it. */
  lemma CompareUniform(s: Sorter, k: Option<Value>, d: set<View>)
    ensures Uniform(Cmp(s), v => FieldOf(s, v) == k, d)
  {
  }

  /**
   * Stability: the objects with equal sort fields keep their scan order,
   * whatever the fields hold (missing, numbers, strings, or a mix).
   */
  lemma SortStableByField(s: Sorter, vs: seq<View>, k: Option<Value>)
    ensures WithField(s, Sort(vs, Cmp(s)), k) == WithField(s, vs, k)
  {
    var d := Elements(vs);
    CompareStrict(s, d);
    CompareUniform(s, k, d);
    ElementsAllIn(vs);
    SortFilter(vs, Cmp(s), v => FieldOf(s, v) == k, d);
  }

  /**
   * Sorting on a stamp field compares the times: for two objects whose
   * stamps have the same number of digits, the comparator says the first
   * belongs after the second exactly when it was stamped later (earlier when
   * descending).
   */
  lemma StampOrderIsTimeOrder(o1: View, o2: View, field: string, dir: Option<string>, t1: nat, t2: nat)
    requires field == "created" || field == "saved"
    requires o1.env.Some? && o2.env.Some?
    requires field == "created" ==> o1.env.value.created == Some(Hex(t1)) && o2.env.value.created == Some(Hex(t2))
    requires field == "saved" ==> o1.env.value.saved == Some(Hex(t1)) && o2.env.value.saved == Some(Hex(t2))
    requires |Hex(t1)| == |Hex(t2)|
    ensures var s := SorterFor(ListOptions(Some(field), dir)).value;
      Compare(s, o1, o2) <==> (if dir == Some("desc") then t2 > t1 else t1 > t2)
  {
    HexOrderSameLength(t1, t2);
    HexOrderSameLength(t2, t1);
  }

  // --------------------------------------------------------------- clear

  /** The keys among `names` that the membership test accepts. */
  ghost function MemberSet(names: seq<string>, propId: string): (r: set<string>) {
    set k | k in names && StartsWith(k, propId)
  }

  /** The member names among the first `i + 1`, from those among the first `i`. */
  lemma MemberSetStep(names: seq<string>, i: nat, propId: string)
    requires i < |names|
    ensures MemberSet(names[..i + 1], propId)
      == MemberSet(names[..i], propId) + (if IsMember(names[i], propId) then {names[i]} else {})
  {
  }

  /**
   * The loop of `clear` run over the names `names`: the backend after it and
   * the count it returns (one per accepted name, present or not).
   */
  ghost function ClearSpec(names: seq<string>, items: map<string, Rec>, propId: string): (r: (map<string, Rec>, nat))
    ensures forall k :: k in r.0 <==> k in items && !(k in names && StartsWith(k, propId))
    ensures forall k | k in r.0 :: r.0[k] == items[k]
    ensures r.1 <= |names|
  {
    (items - MemberSet(names, propId), |Members(names, propId)|)
  }

  /**
   * `for (itemId in Storage)` enumerates the global `Storage` interface
   * object, not the store's backend; in a browser it has no enumerable
   * names, so this is the list the loop as written runs over.
   */
  const HostStorageNames: seq<string> := []

  /**
   * As written, `clear` leaves every entry in place and returns 0, which is
   * not what the loop over the backend's own keys does while the store holds
   * an object.
   */
  lemma ClearAsWrittenRemovesNothing(keys: seq<string>, items: map<string, Rec>, propId: string)
    requires Members(keys, propId) != []
    ensures ClearSpec(HostStorageNames, items, propId) == (items, 0)
    ensures ClearSpec(HostStorageNames, items, propId) != ClearSpec(keys, items, propId)
  {
    assert MemberSet(HostStorageNames, propId) == {};
    assert items - {} == items;
    assert Members(HostStorageNames, propId) == [];
  }

  /**
   * As intended, over the backend's own keys: every member entry goes, every
   * other entry stays, the count is the number of members, and the store is
   * empty afterwards.
   */
  lemma ClearAsIntended(keys: seq<string>, items: map<string, Rec>, propId: string, rest: seq<string>)
    requires forall k :: k in keys <==> k in items
    requires forall k :: k in rest <==> k in ClearSpec(keys, items, propId).0
    ensures forall k | k in items :: k in ClearSpec(keys, items, propId).0 <==> !StartsWith(k, propId)
    ensures ClearSpec(keys, items, propId).1 == |Members(keys, propId)|
    ensures Members(rest, propId) == []
  {
    forall k | k in rest ensures !StartsWith(k, propId) {
      assert k in items && k in keys;
    }
    NoMembers(rest, propId);
  }

  lemma {:induction false} NoMembers(keys: seq<string>, propId: string)
    requires forall k | k in keys :: !StartsWith(k, propId)
    ensures Members(keys, propId) == []
  {
    if keys != [] {
      var k := keys[|keys| - 1];
      IndexOfZeroIsPrefix(k, propId);
      NoMembers(keys[..|keys| - 1], propId);
    }
  }
}
