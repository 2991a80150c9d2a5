/**
 * Rendered component views and the component registry, a name-to-marker map that remembers
 * which component names were registered.
 */
module Component {
  import opened Wrappers

  /** A prop value of a rendered view; a number is kept as its display text. */
  datatype PropValue =
    | StringValue(text: string)
    | Number(display: string)
    | Boolean(flag: bool)
    | Array(items: seq<PropValue>)
    | Object(fields: map<string, PropValue>)
    | Null

  /** A rendered element: its tag, its props by name and its children in order. */
  datatype ComponentView = ComponentView(tag: string, props: map<string, PropValue>, children: seq<ComponentView>)

  /** The marker stored for every registered name. */
  const Registered := "registered"

  class ComponentRegistry {
    var components: map<string, string>

    /** Every stored value is the marker. */
    ghost predicate Valid()
      reads this
    {
      forall name :: name in components ==> components[name] == Registered
    }

    constructor()
      ensures components == map[]
      ensures Valid()
      ensures forall name :: GetComponent(name) == None
    {
      components := map[];
    }

    /** Registering a name stores the marker under it, replacing any earlier entry. */
    method Register(name: string)
      requires Valid()
      modifies this
      ensures Valid()
      ensures components == old(components)[name := Registered]
      ensures GetComponent(name) == Some(Registered)
      ensures forall other :: other != name ==> GetComponent(other) == old(GetComponent(other))
    {
      components := components[name := Registered];
    }

    /** The marker stored under `name`, if it was registered. */
    function GetComponent(name: string): (r: Option<string>)
      reads this
      ensures r.Some? <==> name in components
      ensures r.Some? ==> r.value == components[name]
      ensures Valid() ==> r == None || r == Some(Registered)
    {
      if name in components then Some(components[name]) else None
    }
  }

  /** Registering the same name twice leaves the same map as registering it once. */
  lemma RegisterIdempotent(components: map<string, string>, name: string)
    ensures components[name := Registered][name := Registered] == components[name := Registered]
  {
  }

  /** The order in which two names are registered does not matter. */
  lemma RegisterCommutes(components: map<string, string>, a: string, b: string)
    ensures components[a := Registered][b := Registered] == components[b := Registered][a := Registered]
  {
    if a != b {
      var left, right := components[a := Registered][b := Registered], components[b := Registered][a := Registered];
      assert left.Keys == right.Keys;
      assert forall k :: k in left ==> left[k] == right[k];
    }
  }
}
