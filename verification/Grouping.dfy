/** How the decoder of shelly/blu-to-mqtt.js collects named values into its result object: a name
    reported once holds a scalar, a name reported again holds an array. */
module Grouping {
  import opened Wrappers

  /** A property of the script's result object: a Boolean, a number, or an array of numbers. */
  datatype Value = Flag(b: bool) | Num(x: real) | List(xs: seq<real>)

  type Fields = map<string, Value>

  datatype Item = Item(n: string, x: real)

  /** The values reported under one name, in order of arrival. */
  function ValuesOf(items: seq<Item>, name: string): seq<real> {
    if items == [] then []
    else
      var last := items[|items| - 1];
      ValuesOf(items[..|items| - 1], name) + if last.n == name then [last.x] else []
  }

  function Names(items: seq<Item>): set<string> {
    set i | 0 <= i < |items| :: items[i].n
  }

  /** A scalar for one value, an array for more. */
  function Shape(vs: seq<real>): Value {
    if |vs| == 1 then Num(vs[0]) else List(vs)
  }

  /** Every reported name with exactly its values. */
  function Grouped(items: seq<Item>): Fields {
    map n | n in Names(items) :: Shape(ValuesOf(items, n))
  }

  function Lookup(m: Fields, n: string): Option<Value> {
    if n in m then Some(m[n]) else None
  }

  /** The values listed under a name in a result object. */
  function ListOf(m: Fields, name: string): seq<real> {
    match Lookup(m, name)
    case Some(Num(x)) => [x]
    case Some(List(xs)) => xs
    case _ => []
  }

  /** What the loop does to the property of a name: set it, turn a scalar into an array of two, or
      push onto an array. */
  function Promote(prior: Option<Value>, x: real): Value {
    match prior
    case Some(Num(y)) => List([y, x])
    case Some(List(ys)) => List(ys + [x])
    case _ => Num(x)
  }

  lemma ValuesAppend(items: seq<Item>, it: Item, name: string)
    ensures ValuesOf(items + [it], name) == ValuesOf(items, name) + if it.n == name then [it.x] else []
  {
    assert (items + [it])[..|items|] == items;
  }

  /** The values under a name are those of its items, in order. */
  lemma {:induction false} ValuesInOrder(items: seq<Item>, more: seq<Item>, it: Item, name: string)
    ensures ValuesOf(items + more, name) == ValuesOf(items, name) + ValuesOf(more, name)
    ensures ValuesOf([it], name) == if it.n == name then [it.x] else []
    decreases |more|
  {
    ValuesAppend([], it, name);
    assert [] + [it] == [it];
    if more == [] {
      assert items + more == items;
    } else {
      var init, last := more[..|more| - 1], more[|more| - 1];
      assert items + more == (items + init) + [last] && more == init + [last];
      ValuesInOrder(items, init, it, name);
      ValuesAppend(items + init, last, name);
      ValuesAppend(init, last, name);
    }
  }

  lemma NamesAppend(items: seq<Item>, it: Item)
    ensures Names(items + [it]) == Names(items) + {it.n}
  {
    var longer := items + [it];
    assert longer[|items|] == it;
    assert forall i :: 0 <= i < |items| ==> longer[i] == items[i];
  }

  lemma {:induction false} NamedIffValued(items: seq<Item>, name: string)
    ensures name in Names(items) <==> ValuesOf(items, name) != []
  {
    if items != [] {
      var init, last := items[..|items| - 1], items[|items| - 1];
      NamedIffValued(init, name);
      assert init + [last] == items;
      NamesAppend(init, last);
    }
  }

  /** The property for a list of values: none, a scalar, or an array. */
  lemma LookupGrouped(items: seq<Item>, name: string)
    ensures Lookup(Grouped(items), name) == ShapeOf(ValuesOf(items, name))
  {
    NamedIffValued(items, name);
  }

  function ShapeOf(vs: seq<real>): Option<Value> {
    if vs == [] then None else Some(Shape(vs))
  }

  lemma ShapeAppend(vs: seq<real>, x: real)
    ensures Promote(ShapeOf(vs), x) == Shape(vs + [x])
  {
    assert |vs| == 1 ==> vs + [x] == [vs[0], x];
  }

  lemma LookupExtensional(m: Fields, m': Fields)
    requires forall n :: Lookup(m, n) == Lookup(m', n)
    ensures m == m'
  {
    forall n
      ensures n in m <==> n in m'
    {
      assert Lookup(m, n) == Lookup(m', n);
    }
    forall n | n in m
      ensures m[n] == m'[n]
    {
      assert Lookup(m, n) == Lookup(m', n);
    }
  }

  /** Promoting one property at a time builds the grouped object. */
  lemma GroupedAppend(items: seq<Item>, it: Item)
    ensures Grouped(items + [it]) == Grouped(items)[it.n := Promote(Lookup(Grouped(items), it.n), it.x)]
  {
    var grown := Grouped(items)[it.n := Promote(Lookup(Grouped(items), it.n), it.x)];
    forall n
      ensures Lookup(Grouped(items + [it]), n) == Lookup(grown, n)
    {
      LookupGrouped(items, n);
      LookupGrouped(items + [it], n);
      ValuesAppend(items, it, n);
      if n == it.n {
        ShapeAppend(ValuesOf(items, n), it.x);
      } else {
        assert ValuesOf(items, n) + [] == ValuesOf(items, n);
      }
    }
    LookupExtensional(Grouped(items + [it]), grown);
  }

  /** The list under a name is its values, whatever the shape; and the shape is a scalar exactly for
      one value. */
  lemma GroupedLists(items: seq<Item>, name: string)
    ensures ListOf(Grouped(items), name) == ValuesOf(items, name)
    ensures name in Grouped(items) <==> ValuesOf(items, name) != []
    ensures name in Grouped(items) ==>
              var vs := ValuesOf(items, name);
              Grouped(items)[name] == if |vs| == 1 then Num(vs[0]) else List(vs)
  {
    NamedIffValued(items, name);
  }

  lemma {:induction false} ValuesPrefix(items: seq<Item>, more: seq<Item>, name: string)
    requires items <= more
    ensures ValuesOf(items, name) <= ValuesOf(more, name)
    decreases |more|
  {
    if |items| < |more| {
      ValuesPrefix(items, more[..|more| - 1], name);
    } else {
      assert items == more;
    }
  }
}
