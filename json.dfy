/** A parsed JSON document as the listing code sees it (a serde_json `Value`),
    and the indexing operator `value["key"]` it uses to walk the document. */
module Json {
  import opened Wrappers

  /** A JSON value. A number keeps its literal text, since nothing here does
      arithmetic on it; an object is its key/value pairs in the map's own
      iteration order. */
  datatype Value =
    | Null
    | Bool(b: bool)
    | Number(literal: string)
    | String(s: string)
    | Array(items: seq<Value>)
    | Object(members: seq<(string, Value)>)

  /** No key occurs twice among an object's members, as in a JSON map. */
  predicate UniqueKeys(members: seq<(string, Value)>)
  {
    forall i, j :: 0 <= i < j < |members| ==> members[i].0 != members[j].0
  }

  /** The value stored under `key`, if any member has that key. */
  function Lookup(members: seq<(string, Value)>, key: string): (r: Option<Value>)
    ensures r.None? <==> forall i :: 0 <= i < |members| ==> members[i].0 != key
  {
    if members == [] then None
    else if members[0].0 == key then Some(members[0].1)
    else Lookup(members[1..], key)
  }

  /** In an object whose keys are unique, the lookup of a member's key finds
      exactly that member's value. */
  lemma {:induction false} LookupFindsMember(members: seq<(string, Value)>, i: nat)
    requires UniqueKeys(members)
    requires i < |members|
    ensures Lookup(members, members[i].0) == Some(members[i].1)
  {
    if i > 0 {
      assert members[0].0 != members[i].0;
      assert UniqueKeys(members[1..]) by {
        forall a, b | 0 <= a < b < |members[1..]|
          ensures members[1..][a].0 != members[1..][b].0
        {
          assert members[1..][a] == members[a + 1] && members[1..][b] == members[b + 1];
        }
      }
      LookupFindsMember(members[1..], i - 1);
      assert members[1..][i - 1] == members[i];
    }
  }

  /** `value[key]`: indexing an object by a key it lacks, or indexing
      anything that is not an object, gives `Null` rather than failing. */
  function Index(v: Value, key: string): (r: Value)
    ensures !v.Object? ==> r == Null
    ensures v.Object? && (forall i :: 0 <= i < |v.members| ==> v.members[i].0 != key) ==> r == Null
  {
    match v
    case Object(members) =>
      (match Lookup(members, key)
       case Some(found) => found
       case None => Null)
    case _ => Null
  }

  /** In an object whose keys are unique, indexing by a member's key gives
      that member's value. */
  lemma IndexFindsMember(v: Value, i: nat)
    requires v.Object? && UniqueKeys(v.members)
    requires i < |v.members|
    ensures Index(v, v.members[i].0) == v.members[i].1
  {
    LookupFindsMember(v.members, i);
  }
}
