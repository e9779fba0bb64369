/**
 * The dictionaries the two source files fill in for-loops
 * (`ret[key] = value` for each element in turn, some elements skipped):
 * a later entry for a key overwrites an earlier one.
 */
module Assoc {
  import opened Wrappers

  /** The dictionary left after assigning every present entry of `es`, in order. */
  function Collect<K(==), V>(es: seq<Option<(K, V)>>): map<K, V>
  {
    if es == [] then map[]
    else
      var m := Collect(es[..|es| - 1]);
      match es[|es| - 1]
      case None => m
      case Some(kv) => m[kv.0 := kv.1]
  }

  /** The entry assigns key `k`. */
  predicate Sets<K(==), V>(e: Option<(K, V)>, k: K)
  {
    e.Some? && e.value.0 == k
  }

  /** One more loop iteration: the entry, if present, is written over the dictionary so far. */
  lemma CollectSnoc<K, V>(es: seq<Option<(K, V)>>, e: Option<(K, V)>)
    ensures Collect(es + [e]) == if e.Some? then Collect(es)[e.value.0 := e.value.1] else Collect(es)
  {
    assert (es + [e])[..|es|] == es;
  }

  /** One iteration of a loop over `es`: the dictionary of the first i + 1 entries. */
  lemma CollectPrefix<K, V>(es: seq<Option<(K, V)>>, i: nat)
    requires i < |es|
    ensures Collect(es[..i + 1])
         == if es[i].Some? then Collect(es[..i])[es[i].value.0 := es[i].value.1] else Collect(es[..i])
  {
    assert es[..i + 1][..i] == es[..i];
  }

  /** One iteration of a loop over `es` that started from the dictionary of `pre`. */
  lemma CollectStep<K, V>(pre: seq<Option<(K, V)>>, es: seq<Option<(K, V)>>, j: nat)
    requires j < |es|
    ensures Collect(pre + es[..j + 1])
         == if es[j].Some? then Collect(pre + es[..j])[es[j].value.0 := es[j].value.1]
            else Collect(pre + es[..j])
  {
    assert pre + es[..j + 1] == (pre + es[..j]) + [es[j]];
    CollectSnoc(pre + es[..j], es[j]);
  }

  /** A key is in the dictionary exactly when some entry assigns it. */
  lemma {:induction false} CollectKeys<K, V>(es: seq<Option<(K, V)>>, k: K)
    ensures k in Collect(es) <==> exists i :: 0 <= i < |es| && Sets(es[i], k)
  {
    if es != [] {
      var init := es[..|es| - 1];
      CollectKeys(init, k);
      if exists i :: 0 <= i < |init| && Sets(init[i], k) {
        var i :| 0 <= i < |init| && Sets(init[i], k);
        assert Sets(es[i], k);
      }
    }
  }

  /** The value under a key is the one the last entry assigning that key wrote. */
  lemma {:induction false} CollectLastWins<K, V>(es: seq<Option<(K, V)>>, k: K, i: nat)
    requires i < |es| && Sets(es[i], k)
    requires forall j :: i < j < |es| ==> !Sets(es[j], k)
    ensures k in Collect(es) && Collect(es)[k] == es[i].value.1
  {
    var init := es[..|es| - 1];
    if i < |es| - 1 {
      CollectLastWins(init, k, i);
    }
  }

  /** Running the loop over `a` and then over `b`: `b`'s assignments win. */
  lemma {:induction false} CollectAppend<K, V>(a: seq<Option<(K, V)>>, b: seq<Option<(K, V)>>)
    ensures Collect(a + b) == Collect(a) + Collect(b)
  {
    if b == [] {
      assert a + b == a;
    } else {
      var bi := b[..|b| - 1];
      CollectAppend(a, bi);
      assert (a + b)[..|a + b| - 1] == a + bi;
    }
  }
}
