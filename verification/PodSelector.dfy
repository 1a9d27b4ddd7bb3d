/** Pods, and the containers of a pod that a capture or a trigger works on. */
module PodSelector {

  datatype Pod = Pod(name: string, node: string, containers: seq<string>)

  /** The selected containers, in pod order; no names means all of them. */
  function Selected(containers: seq<string>, names: seq<string>): seq<string> {
    if names == [] then containers else Keep(containers, names)
  }

  function Keep(containers: seq<string>, names: seq<string>): seq<string> {
    if containers == [] then []
    else
      var init, last := containers[..|containers| - 1], containers[|containers| - 1];
      Keep(init, names) + (if last in names then [last] else [])
  }

  method FilterContainers(containers: seq<string>, names: seq<string>) returns (result: seq<string>)
    ensures result == Selected(containers, names)
  {
    if |names| == 0 { return containers; }
    var nameSet: set<string> := {};
    for i := 0 to |names|
      invariant nameSet == set x | x in names[..i]
    {
      assert names[..i + 1] == names[..i] + [names[i]];
      nameSet := nameSet + {names[i]};
    }
    assert names[..|names|] == names;
    result := [];
    for i := 0 to |containers|
      invariant result == Keep(containers[..i], names)
    {
      assert containers[..i + 1][..i] == containers[..i];
      if containers[i] in nameSet { result := result + [containers[i]]; }
    }
    assert containers[..|containers|] == containers;
  }

  /** Selection by name is an order-preserving filter. */
  lemma {:induction false} KeepIsFilter(containers: seq<string>, names: seq<string>)
    ensures forall c :: c in Keep(containers, names) <==> c in containers && c in names
    ensures |Keep(containers, names)| <= |containers|
    ensures forall i, j :: 0 <= i < j < |Keep(containers, names)| ==>
              exists a, b :: 0 <= a < b < |containers| &&
                containers[a] == Keep(containers, names)[i] && containers[b] == Keep(containers, names)[j]
  {
    if containers != [] {
      var n := |containers| - 1;
      var init, last := containers[..n], containers[n];
      assert containers == init + [last];
      KeepIsFilter(init, names);
      var kept, before := Keep(containers, names), Keep(init, names);
      forall i, j | 0 <= i < j < |kept|
        ensures exists a, b :: 0 <= a < b < |containers| && containers[a] == kept[i] && containers[b] == kept[j]
      {
        if j < |before| {
          var a, b :| 0 <= a < b < |init| && init[a] == before[i] && init[b] == before[j];
          assert containers[a] == kept[i] && containers[b] == kept[j];
        } else {
          assert before[i] in init;
          var a :| 0 <= a < |init| && init[a] == before[i];
          assert containers[a] == kept[i] && containers[n] == kept[j];
        }
      }
    }
  }
}
