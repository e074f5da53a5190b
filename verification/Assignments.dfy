/** Variables that are fixed one after the other, each evaluated under those before it. */
module Assignments {
  import opened Seqs

  type Evaluation<!K, !V, -F> = (map<K, V>, F) -> V

  /** The settings with these names as they are in vars. */
  function Before<K, V>(settings: map<K, V>, vars: map<K, V>, names: seq<K>): map<K, V> {
    settings + map k | k in names && k in vars :: vars[k]
  }

  /** The i-th name stands for its field evaluated under the settings and the names before it. */
  ghost predicate StandsFor<K(!new), V, F>(eval: Evaluation<K, V, F>, names: seq<K>, fields: seq<F>,
                                           settings: map<K, V>, vars: map<K, V>, i: int)
    requires 0 <= i < |names| == |fields|
  {
    names[i] in vars && vars[names[i]] == eval(Before(settings, vars, names[..i]), fields[i])
  }

  ghost predicate SameAt<K, V>(a: map<K, V>, b: map<K, V>, k: K) {
    (k in a <==> k in b) && (k in a ==> a[k] == b[k])
  }

  /** So does every name, and there is nothing else but the settings. */
  ghost predicate InOrder<K(!new), V, F>(eval: Evaluation<K, V, F>, names: seq<K>, fields: seq<F>,
                                         settings: map<K, V>, vars: map<K, V>)
    requires |fields| == |names|
  {
    && (forall i :: 0 <= i < |names| ==> StandsFor(eval, names, fields, settings, vars, i))
    && (forall k :: k !in names ==> SameAt(vars, settings, k))
  }

  /** The table after these names have been fixed one by one. */
  function Fixed<K(!new), V, F>(eval: Evaluation<K, V, F>, names: seq<K>, fields: seq<F>,
                                settings: map<K, V>): map<K, V>
    requires |fields| == |names|
  {
    if names == [] then settings
    else
      var n := |names| - 1;
      var before := Fixed(eval, names[..n], fields[..n], settings);
      before[names[n] := eval(before, fields[n])]
  }

  lemma {:induction false} FixedKeys<K(!new), V, F>(eval: Evaluation<K, V, F>, names: seq<K>, fields: seq<F>,
                                                     settings: map<K, V>)
    requires |fields| == |names|
    ensures Fixed(eval, names, fields, settings).Keys == settings.Keys + (set k | k in names)
    ensures forall k :: k in settings && k !in names ==> Fixed(eval, names, fields, settings)[k] == settings[k]
  {
    if names != [] {
      var n := |names| - 1;
      FixedKeys(eval, names[..n], fields[..n], settings);
      assert (set k | k in names) == (set k | k in names[..n]) + {names[n]};
    }
  }

  lemma BeforeAt<K, V>(settings: map<K, V>, vars: map<K, V>, names: seq<K>, k: K)
    ensures SameAt(Before(settings, vars, names), if k in names && k in vars then vars else settings, k)
  {
  }

  lemma BeforeAgain<K, V>(settings: map<K, V>, vars: map<K, V>, names: seq<K>, i: nat)
    requires i <= |names|
    ensures Before(settings, Before(settings, vars, names), names[..i]) == Before(settings, vars, names[..i])
  {
  }

  lemma SameTables<K(!new), V>(a: map<K, V>, b: map<K, V>)
    requires forall k :: SameAt(a, b, k)
    ensures a == b
  {
    forall k
      ensures k in a.Keys <==> k in b.Keys
      ensures k in a ==> a[k] == b[k]
    {
      assert SameAt(a, b, k);
    }
  }

  /** Of all names but the last, the table before the last one says the same. */
  lemma StandsForIff<K(!new), V, F>(eval: Evaluation<K, V, F>, names: seq<K>, fields: seq<F>, settings: map<K, V>,
                                    vars: map<K, V>, n: nat, i: nat)
    requires i < n < |names| == |fields| && names[i] in vars
    ensures StandsFor(eval, names, fields, settings, vars, i)
            <==> StandsFor(eval, names[..n], fields[..n], settings, Before(settings, vars, names[..n]), i)
  {
    BeforeAgain(settings, vars, names[..n], i);
    assert names[..n][..i] == names[..i] && names[..n][i] == names[i] && fields[..n][i] == fields[i];
    BeforeAt(settings, vars, names[..n], names[i]);
    assert names[i] in names[..n];
  }

  lemma InOrderShrinks<K(!new), V, F>(eval: Evaluation<K, V, F>, names: seq<K>, fields: seq<F>, settings: map<K, V>,
                                      vars: map<K, V>, n: nat)
    requires |fields| == |names| == n + 1 && InOrder(eval, names, fields, settings, vars)
    ensures InOrder(eval, names[..n], fields[..n], settings, Before(settings, vars, names[..n]))
  {
    var before := Before(settings, vars, names[..n]);
    forall i | 0 <= i < n
      ensures StandsFor(eval, names[..n], fields[..n], settings, before, i)
    {
      assert StandsFor(eval, names, fields, settings, vars, i);
      StandsForIff(eval, names, fields, settings, vars, n, i);
    }
    forall k | k !in names[..n]
      ensures SameAt(before, settings, k)
    {
      BeforeAt(settings, vars, names[..n], k);
    }
  }

  lemma LastInOrder<K(!new), V, F>(eval: Evaluation<K, V, F>, names: seq<K>, fields: seq<F>, settings: map<K, V>,
                                   vars: map<K, V>, n: nat)
    requires |fields| == |names| == n + 1 && InOrder(eval, names, fields, settings, vars)
    ensures var before := Before(settings, vars, names[..n]);
            vars == before[names[n] := eval(before, fields[n])]
  {
    var before := Before(settings, vars, names[..n]);
    var after := before[names[n] := eval(before, fields[n])];
    assert StandsFor(eval, names, fields, settings, vars, n);
    forall k
      ensures SameAt(vars, after, k)
    {
      BeforeAt(settings, vars, names[..n], k);
      if k in names && k != names[n] {
        var i: nat :| i < n && names[i] == k;
        assert StandsFor(eval, names, fields, settings, vars, i);
        assert names[..n][i] == k;
      }
      assert k !in names ==> SameAt(vars, settings, k);
    }
    SameTables(vars, after);
  }

  lemma InOrderGrows<K(!new), V, F>(eval: Evaluation<K, V, F>, names: seq<K>, fields: seq<F>, settings: map<K, V>,
                                    vars: map<K, V>, n: nat)
    requires |fields| == |names| == n + 1 && Distinct(names)
    requires var before := Before(settings, vars, names[..n]);
             && InOrder(eval, names[..n], fields[..n], settings, before)
             && vars == before[names[n] := eval(before, fields[n])]
    ensures InOrder(eval, names, fields, settings, vars)
  {
    var before := Before(settings, vars, names[..n]);
    forall i | 0 <= i < n
      ensures StandsFor(eval, names, fields, settings, vars, i)
    {
      assert StandsFor(eval, names[..n], fields[..n], settings, before, i);
      assert names[..n][i] == names[i] && names[i] in vars;
      StandsForIff(eval, names, fields, settings, vars, n, i);
    }
    assert StandsFor(eval, names, fields, settings, vars, n);
    forall k | k !in names
      ensures SameAt(vars, settings, k)
    {
      assert k !in names[..n] && k != names[n];
      assert SameAt(before, settings, k);
    }
  }

  lemma FixedBefore<K(!new), V, F>(eval: Evaluation<K, V, F>, names: seq<K>, fields: seq<F>, settings: map<K, V>,
                                   n: nat, val: V)
    requires |fields| == |names| == n + 1 && Distinct(names)
    ensures var fixed := Fixed(eval, names[..n], fields[..n], settings);
            Before(settings, fixed[names[n] := val], names[..n]) == fixed
  {
    FixedKeys(eval, names[..n], fields[..n], settings);
    assert names[n] !in names[..n];
  }

  /** There is exactly one table in which all names stand for their fields in order. */
  lemma {:induction false} FixedIff<K(!new), V, F>(eval: Evaluation<K, V, F>, names: seq<K>, fields: seq<F>,
                                                    settings: map<K, V>, vars: map<K, V>)
    requires |fields| == |names| && Distinct(names)
    ensures InOrder(eval, names, fields, settings, vars) <==> vars == Fixed(eval, names, fields, settings)
  {
    if names == [] {
      if InOrder(eval, names, fields, settings, vars) {
        SameTables(vars, settings);
      }
    } else {
      var n := |names| - 1;
      var before := Before(settings, vars, names[..n]);
      FixedIff(eval, names[..n], fields[..n], settings, before);
      if InOrder(eval, names, fields, settings, vars) {
        InOrderShrinks(eval, names, fields, settings, vars, n);
        LastInOrder(eval, names, fields, settings, vars, n);
      }
      if vars == Fixed(eval, names, fields, settings) {
        FixedBefore(eval, names, fields, settings, n, eval(Fixed(eval, names[..n], fields[..n], settings), fields[n]));
        InOrderGrows(eval, names, fields, settings, vars, n);
      }
    }
  }

  lemma FixedOneMore<K(!new), V, F>(eval: Evaluation<K, V, F>, names: seq<K>, fields: seq<F>, settings: map<K, V>,
                                    n: nat)
    requires n < |fields| == |names|
    ensures var before := Fixed(eval, names[..n], fields[..n], settings);
            Fixed(eval, names[..n + 1], fields[..n + 1], settings) == before[names[n] := eval(before, fields[n])]
  {
    assert names[..n + 1][..n] == names[..n] && fields[..n + 1][..n] == fields[..n];
  }

  /** Five names, spelt out. */
  lemma FixedFive<K(!new), V, F>(eval: Evaluation<K, V, F>, names: seq<K>, fields: seq<F>, settings: map<K, V>)
    requires |names| == |fields| == 5
    ensures var t1 := settings[names[0] := eval(settings, fields[0])];
            var t2 := t1[names[1] := eval(t1, fields[1])];
            var t3 := t2[names[2] := eval(t2, fields[2])];
            var t4 := t3[names[3] := eval(t3, fields[3])];
            Fixed(eval, names, fields, settings) == t4[names[4] := eval(t4, fields[4])]
  {
    FixedOneMore(eval, names, fields, settings, 0);
    FixedOneMore(eval, names, fields, settings, 1);
    FixedOneMore(eval, names, fields, settings, 2);
    FixedOneMore(eval, names, fields, settings, 3);
    FixedOneMore(eval, names, fields, settings, 4);
    TakeAll(names);
    TakeAll(fields);
  }
}
