/**
 * The binding records of the event system (deps/sxui/sxui.c:228-250): a
 * handler list holds (id, callback) records in binding order, and a
 * disconnection removes the first record carrying the connection's id.
 */
module Bindings {
  import opened Wrappers

  /** A callback is known only by its identity; the model never calls it. */
  type Callback = nat

  /** BoundCallback. */
  datatype Binding = Binding(id: int, callback: Callback)

  /** Whether some record of the list carries the id. */
  predicate Carries(list: seq<Binding>, id: int) {
    exists k :: 0 <= k < |list| && list[k].id == id
  }

  /** Position of the first record carrying id, or |list| when there is none. */
  function FirstIndex(list: seq<Binding>, id: int): (r: nat)
    ensures r <= |list|
    ensures forall j :: 0 <= j < r ==> list[j].id != id
    ensures r < |list| ==> list[r].id == id
    decreases |list|
  {
    if list == [] || list[0].id == id then 0
    else 1 + FirstIndex(list[1..], id)
  }

  /** The list without its first record carrying id; the list itself when there is none. */
  function WithoutFirst(list: seq<Binding>, id: int): (r: seq<Binding>)
    ensures !Carries(list, id) ==> r == list
    ensures forall k :: 0 <= k < |list| && list[k].id == id && (forall j :: 0 <= j < k ==> list[j].id != id)
                        ==> r == list[..k] + list[k + 1..]
  {
    var f := FirstIndex(list, id);
    if f < |list| then list[..f] + list[f + 1..] else list
  }

  /** The list loop of disconnect_binding: scan for the id and remove the record found. */
  method RemoveFirst(list: seq<Binding>, id: int) returns (r: seq<Binding>)
    ensures r == WithoutFirst(list, id)
  {
    var i := 0;
    while i < |list|
      invariant 0 <= i <= |list|
      invariant forall j :: 0 <= j < i ==> list[j].id != id
    {
      if list[i].id == id {
        return list[..i] + list[i + 1..];
      }
      i := i + 1;
    }
    return list;
  }

  /** Removing a record that was just appended under a fresh id gives back the list as it was. */
  lemma {:induction false} BindThenRemove(list: seq<Binding>, id: int, cb: Callback)
    requires forall k :: 0 <= k < |list| ==> list[k].id < id
    ensures WithoutFirst(list + [Binding(id, cb)], id) == list
  {
    var l := list + [Binding(id, cb)];
    assert l[|list|].id == id;
    assert forall j :: 0 <= j < |list| ==> l[j].id != id;
    assert l[..|list|] == list && l[|list| + 1..] == [];
  }

  /** Removal takes out exactly one record carrying the id, and only when there is one. */
  lemma RemovalCount(list: seq<Binding>, id: int)
    ensures Carries(list, id) ==> |WithoutFirst(list, id)| == |list| - 1
    ensures !Carries(list, id) ==> WithoutFirst(list, id) == list
  {
    if Carries(list, id) {
      var k :| 0 <= k < |list| && list[k].id == id;
      FirstCarrier(list, id, k);
    }
  }

  /** When the id occurs, there is a first record carrying it. */
  lemma {:induction false} FirstCarrier(list: seq<Binding>, id: int, k: int)
    requires 0 <= k < |list| && list[k].id == id
    ensures exists f :: 0 <= f <= k && list[f].id == id && (forall j :: 0 <= j < f ==> list[j].id != id)
    decreases k
  {
    if exists j :: 0 <= j < k && list[j].id == id {
      var j :| 0 <= j < k && list[j].id == id;
      FirstCarrier(list, id, j);
    }
  }
}
