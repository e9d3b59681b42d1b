/** The in-memory objects a store saves and hands back. */
module Objects {
  import opened Wrappers
  import opened Engine
  import opened Sorting

  /**
   * An object of some application type: the type it was constructed as
   * (the name of its constructor), its own fields and its envelope, which
   * `store` attaches and refreshes and `remove` deletes.
   */
  class Item {
    var tag: string
    var payload: map<string, Value>
    var env: Option<Envelope>

    /** `new Apa(...)`: a fresh object that has never been stored. */
    constructor (tag: string, payload: map<string, Value>)
      ensures this.tag == tag && this.payload == payload && env == None
    {
      this.tag := tag;
      this.payload := payload;
      env := None;
    }

    /** A fresh object with the given value (what `retrieve` builds). */
    constructor FromView(v: View)
      ensures AsView() == v
    {
      tag := v.tag;
      payload := v.payload;
      env := v.env;
    }

    function AsView(): (r: View)
      reads this
    {
      View(tag, payload, env)
    }
  }

  /** The values of a list of objects. */
  function Views(s: seq<Item>): (r: seq<View>)
    reads s
    ensures |r| == |s| && forall i | 0 <= i < |s| :: r[i] == s[i].AsView()
  {
    if s == [] then [] else [s[0].AsView()] + Views(s[1..])
  }

  /** Appending an object appends its value. */
  lemma ViewsSnoc(s: seq<Item>, x: Item)
    ensures Views(s + [x]) == Views(s) + [x.AsView()]
  {
  }

  /** What `remove` accepts: an id string, or an object. */
  datatype Target = ById(id: string) | ByObject(obj: Item)

  function Fst(p: (View, Item)): (r: View) { p.0 }
  function Snd(p: (View, Item)): (r: Item) { p.1 }

  /** Each object paired with its value. */
  function Decorated(s: seq<Item>): (r: seq<(View, Item)>)
    reads s
    ensures |r| == |s| && forall i | 0 <= i < |s| :: r[i] == (s[i].AsView(), s[i])
  {
    if s == [] then [] else [(s[0].AsView(), s[0])] + Decorated(s[1..])
  }

  /** Every pair holds an object's current value next to the object. */
  predicate Coherent(ps: seq<(View, Item)>)
    reads set p | p in ps :: p.1
  {
    forall i | 0 <= i < |ps| :: ps[i].0 == ps[i].1.AsView()
  }

  /** A reordering of coherent pairs is coherent. */
  lemma CoherentPermutation(a: seq<(View, Item)>, b: seq<(View, Item)>)
    requires multiset(a) == multiset(b) && Coherent(b)
    ensures Coherent(a)
  {
    forall i | 0 <= i < |a| ensures a[i].0 == a[i].1.AsView() {
      assert a[i] in multiset(b);
      var j :| 0 <= j < |b| && b[j] == a[i];
    }
  }

  /** Projecting coherent pairs on the object gives objects with the projected values. */
  lemma CoherentViews(ps: seq<(View, Item)>)
    requires Coherent(ps)
    ensures Views(MapSeq(ps, Snd)) == MapSeq(ps, Fst)
  {
  }
}
