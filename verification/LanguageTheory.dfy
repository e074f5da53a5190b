/** What normalizing a language configuration fixes, and which words its commands have (judge/language.go). */
module LanguageTheory {
  import opened Assignments
  import opened Language
  import opened Seqs
  import opened Templates

  // ----- the variables

  const NAMES: seq<string> := ["Compiler", "SourceName", "ArtifactName", "CompileCmd", "ExecuteCmd"]

  function Fields(raw: RawConf): (fields: seq<string>)
    ensures |fields| == |NAMES|
  {
    [raw.compiler, raw.sourceName, raw.artifactName, raw.compileCmd, raw.executeCmd]
  }

  lemma NamesAreDistinct()
    ensures Distinct(NAMES)
  {
  }

  lemma NormalizedIsFixed(raw: RawConf, table: Table)
    requires forall item :: item in raw.environment ==> item.Setting?
    ensures NormalizedTable(raw, table) == Fixed(Eval, NAMES, Fields(raw), WithSettings(raw.environment, table))
  {
    FixedFive(Eval, NAMES, Fields(raw), WithSettings(raw.environment, table));
  }

  /**
   * After normalizing, and in no other table, each of the five variables is its field evaluated under the settings and
   * the variables before it.
   */
  lemma NormalizedIff(raw: RawConf, table: Table, vars: Table)
    requires forall item :: item in raw.environment ==> item.Setting?
    ensures InOrder(Eval, NAMES, Fields(raw), WithSettings(raw.environment, table), vars)
            <==> vars == NormalizedTable(raw, table)
  {
    NamesAreDistinct();
    NormalizedIsFixed(raw, table);
    FixedIff(Eval, NAMES, Fields(raw), WithSettings(raw.environment, table), vars);
  }

  /** A field without dollar signs is its variable. */
  lemma PlainField(raw: RawConf, table: Table, n: nat)
    requires forall item :: item in raw.environment ==> item.Setting?
    requires n < |NAMES| && DollarFree(Fields(raw)[n])
    ensures NAMES[n] in NormalizedTable(raw, table) && NormalizedTable(raw, table)[NAMES[n]] == Fields(raw)[n]
  {
    var settings, vars := WithSettings(raw.environment, table), NormalizedTable(raw, table);
    NormalizedIff(raw, table, vars);
    assert StandsFor(Eval, NAMES, Fields(raw), settings, vars, n);
    EvalOfText(Before(settings, vars, NAMES[..n]), Fields(raw)[n]);
  }

  // ----- the settings

  /** The i-th setting is the last one with this key. */
  ghost predicate LastSetting(items: seq<EnvItem>, i: int, key: string) {
    && 0 <= i < |items| && items[i].Setting? && items[i].key == key
    && forall j :: i < j < |items| && items[j].Setting? ==> items[j].key != key
  }

  ghost predicate IsSet(items: seq<EnvItem>, key: string) {
    exists i :: 0 <= i < |items| && items[i].Setting? && items[i].key == key
  }

  lemma LastSettingStep(items: seq<EnvItem>, i: nat, key: string)
    requires i < |items| - 1
    ensures LastSetting(items, i, key) ==> LastSetting(items[..|items| - 1], i, key)
    ensures LastSetting(items, i, key) && items[|items| - 1].Setting? ==> items[|items| - 1].key != key
  {
  }

  lemma OneMoreSetting(items: seq<EnvItem>, table: Table, env: Table, key: string)
    requires items != [] && forall item :: item in items ==> item.Setting?
    ensures var n := |items| - 1;
            var before, last := WithSettings(items[..n], table), items[n];
            && SameAt(WithSettings(items, table),
                      if last.key == key then map[key := Eval(before, last.val)] else before, key)
            && SameAt(Environment(items, table, env),
                      if last.key == key then map[key := Eval(before, last.val)]
                      else Environment(items[..n], table, env), key)
  {
  }

  /** The value of a setting is that of the last one with its key, under the table of all settings before that. */
  lemma {:induction false} SettingValue(items: seq<EnvItem>, table: Table, env: Table, key: string, i: nat)
    requires forall item :: item in items ==> item.Setting?
    requires LastSetting(items, i, key)
    ensures var val := map[key := Eval(WithSettings(items[..i], table), items[i].val)];
            SameAt(WithSettings(items, table), val, key) && SameAt(Environment(items, table, env), val, key)
  {
    var n := |items| - 1;
    OneMoreSetting(items, table, env, key);
    if i < n {
      LastSettingStep(items, i, key);
      assert items[n] in items && items[..n][i] == items[i] && items[..n][..i] == items[..i];
      SettingValue(items[..n], table, env, key, i);
    }
  }

  /** What no setting mentions stays as it was. */
  lemma {:induction false} UnsetValue(items: seq<EnvItem>, table: Table, env: Table, key: string)
    requires forall item :: item in items ==> item.Setting?
    requires !IsSet(items, key)
    ensures SameAt(WithSettings(items, table), table, key) && SameAt(Environment(items, table, env), env, key)
  {
    if items != [] {
      var n := |items| - 1;
      OneMoreSetting(items, table, env, key);
      assert items[n] in items && items[n].key != key;
      forall i | 0 <= i < n
        ensures items[..n][i].key != key
      {
        assert items[..n][i] == items[i] && items[i] in items;
      }
      UnsetValue(items[..n], table, env, key);
    }
  }

  lemma {:induction false} LastSettingExists(items: seq<EnvItem>, key: string) returns (i: nat)
    requires IsSet(items, key)
    ensures LastSetting(items, i, key)
  {
    var n := |items| - 1;
    if items[n].Setting? && items[n].key == key {
      i := n;
    } else {
      var k :| 0 <= k < |items| && items[k].Setting? && items[k].key == key;
      assert items[..n][k] == items[k];
      i := LastSettingExists(items[..n], key);
    }
  }

  /**
   * The program's environment has the judge's variables and one value for every setting; outside the five variables it
   * is what commands see.
   */
  lemma EnvironmentAgrees(raw: RawConf, judgeEnv: Table, key: string)
    requires forall item :: item in raw.environment ==> item.Setting?
    ensures var env, vars := Environment(raw.environment, judgeEnv, judgeEnv), NormalizedTable(raw, judgeEnv);
            && (key in env <==> key in judgeEnv || IsSet(raw.environment, key))
            && SameAt(env, WithSettings(raw.environment, judgeEnv), key)
            && (key !in NAMES ==> SameAt(env, vars, key))
  {
    NormalizedIff(raw, judgeEnv, NormalizedTable(raw, judgeEnv));
    SettingsAgree(raw.environment, judgeEnv, key);
  }

  lemma SettingsAgree(items: seq<EnvItem>, judgeEnv: Table, key: string)
    requires forall item :: item in items ==> item.Setting?
    ensures SameAt(Environment(items, judgeEnv, judgeEnv), WithSettings(items, judgeEnv), key)
    ensures key in Environment(items, judgeEnv, judgeEnv) <==> key in judgeEnv || IsSet(items, key)
  {
    if IsSet(items, key) {
      var i := LastSettingExists(items, key);
      SettingValue(items, judgeEnv, judgeEnv, key, i);
    } else {
      UnsetValue(items, judgeEnv, judgeEnv, key);
    }
  }
}
