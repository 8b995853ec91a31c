/** Annotation keys and the merging of annotation maps. */
module Annotations {

  const RTE_UPDATE := "k8stopoawareschedwg/rte-update"

  /** The union of the maps, later ones winning. */
  function Merged(kvs: seq<map<string, string>>): map<string, string> {
    if kvs == [] then map[] else Merged(kvs[..|kvs| - 1]) + kvs[|kvs| - 1]
  }

  /** No key of any map is lost, and each has the value of the last map that holds it. */
  lemma {:induction false} MergedLastWins(kvs: seq<map<string, string>>, k: string)
    ensures k in Merged(kvs) <==> exists i :: 0 <= i < |kvs| && k in kvs[i]
    ensures k in Merged(kvs) ==>
              exists i :: 0 <= i < |kvs| && k in kvs[i] && Merged(kvs)[k] == kvs[i][k] &&
                          forall j :: i < j < |kvs| ==> k !in kvs[j]
  {
    if kvs != [] && k !in kvs[|kvs| - 1] {
      var front := kvs[..|kvs| - 1];
      MergedLastWins(front, k);
      if k in Merged(front) {
        var i :| 0 <= i < |front| && k in front[i] && Merged(front)[k] == front[i][k] &&
                 forall j :: i < j < |front| ==> k !in front[j];
        assert kvs[i] == front[i];
        forall j | i < j < |kvs| ensures k !in kvs[j] {
          if j < |front| { assert kvs[j] == front[j]; }
        }
      }
    }
  }

  lemma {:induction false} MergedTwo(a: map<string, string>, b: map<string, string>)
    ensures Merged([a, b]) == a + b
  {
    assert [a, b][..1] == [a] && [a][..0] == [];
    assert Merged([a]) == map[] + a == a;
  }

  method Merge(kvs: seq<map<string, string>>) returns (ret: map<string, string>)
    ensures ret == Merged(kvs)
  {
    ret := map[];
    for n := 0 to |kvs|
      invariant ret == Merged(kvs[..n])
    {
      var kv := kvs[n];
      ghost var before := ret;
      var todo := kv.Keys;
      while todo != {}
        invariant todo <= kv.Keys
        invariant ret == before + (kv - todo)
      {
        var key :| key in todo;
        ret := ret[key := kv[key]];
        todo := todo - {key};
      }
      assert kv - {} == kv;
      assert kvs[..n + 1][..n] == kvs[..n];
    }
    assert kvs[..|kvs|] == kvs;
  }
}
