/** Language configurations (judge/language.go): variables are fixed once, the compile command again per submission. */
module Language {
  import opened Seqs
  import opened Templates

  /** One environment string after parsing. */
  datatype EnvItem = Setting(key: string, val: string) | Malformed

  datatype RawConf = RawConf(environment: seq<EnvItem>, compiler: string, sourceName: string, artifactName: string,
                             compileCmd: string, executeCmd: string, noCompilation: bool,
                             options: map<string, string>)

  datatype Command = Command(args: seq<string>) | UnknownOption(key: string)

  /** The table after the first settings, each evaluated under the table so far. */
  function WithSettings(items: seq<EnvItem>, table: Table): Table
    requires forall item :: item in items ==> item.Setting?
  {
    if items == [] then table
    else
      var before := WithSettings(items[..|items| - 1], table);
      var last := items[|items| - 1];
      before[last.key := Eval(before, last.val)]
  }

  /** The settings alone, as the program's environment. */
  function Environment(items: seq<EnvItem>, table: Table, env: Table): Table
    requires forall item :: item in items ==> item.Setting?
  {
    if items == [] then env
    else
      var last := items[|items| - 1];
      Environment(items[..|items| - 1], table, env)
        [last.key := Eval(WithSettings(items[..|items| - 1], table), last.val)]
  }

  /** The table under which the compile command is evaluated the first time. */
  function CompileTable(raw: RawConf, table: Table): Table
    requires forall item :: item in raw.environment ==> item.Setting?
  {
    var t0 := WithSettings(raw.environment, table);
    var t1 := t0["Compiler" := Eval(t0, raw.compiler)];
    var t2 := t1["SourceName" := Eval(t1, raw.sourceName)];
    t2["ArtifactName" := Eval(t2, raw.artifactName)]
  }

  function NormalizedTable(raw: RawConf, table: Table): Table
    requires forall item :: item in raw.environment ==> item.Setting?
  {
    var t := CompileTable(raw, table);
    var t' := t["CompileCmd" := Eval(t, raw.compileCmd)];
    t'["ExecuteCmd" := Eval(t', raw.executeCmd)]
  }

  function Join(parts: seq<string>, sep: string): string {
    if parts == [] then [] else if |parts| == 1 then parts[0] else parts[0] + sep + Join(parts[1..], sep)
  }

  /** The maximal runs without spaces. */
  function Words(s: string): (words: seq<string>)
    ensures forall w :: w in words ==> w != [] && ' ' !in w
    decreases |s|
  {
    if s == [] then []
    else if s[0] == ' ' then Words(s[1..])
    else
      var n := RunLen(s);
      [s[..n]] + Words(s[n..])
  }

  function RunLen(s: string): (n: nat)
    ensures n <= |s| && ' ' !in s[..n]
    ensures n < |s| ==> s[n] == ' '
  {
    if s == [] || s[0] == ' ' then 0
    else
      var n := RunLen(s[1..]);
      assert s[..n + 1] == [s[0]] + s[1..][..n];
      n + 1
  }

  function Chosen(raw: RawConf, keys: seq<string>): seq<string>
    requires forall k :: k in keys ==> k in raw.options
  {
    seq(|keys|, i requires 0 <= i < |keys| => raw.options[keys[i]])
  }

  class LanguageConf {
    const raw: RawConf
    var env: Table
    var vars: Table
    var needCompilation: bool

    constructor (raw: RawConf, judgeEnv: Table)
      ensures this.raw == raw && env == judgeEnv && vars == judgeEnv
    {
      this.raw := raw;
      env, vars, needCompilation := judgeEnv, judgeEnv, false;
    }

    method Normalize() returns (ok: bool)
      modifies this
      ensures ok <==> forall item :: item in raw.environment ==> item.Setting?
      ensures ok ==> vars == NormalizedTable(raw, old(vars)) && needCompilation == !raw.noCompilation
      ensures ok ==> env == Environment(raw.environment, old(vars), old(env))
    {
      for i := 0 to |raw.environment|
        invariant forall item :: item in raw.environment[..i] ==> item.Setting?
        invariant vars == WithSettings(raw.environment[..i], old(vars))
        invariant env == Environment(raw.environment[..i], old(vars), old(env))
      {
        TakeOneMore(raw.environment, i);
        var item := raw.environment[i];
        if item.Malformed? {
          assert item in raw.environment;
          return false;
        }
        assert raw.environment[..i + 1][..i] == raw.environment[..i];
        var val := Eval(vars, item.val);
        env := env[item.key := val];
        vars := vars[item.key := val];
      }
      TakeAll(raw.environment);
      needCompilation := !raw.noCompilation;
      vars := vars["Compiler" := Eval(vars, raw.compiler)];
      vars := vars["SourceName" := Eval(vars, raw.sourceName)];
      vars := vars["ArtifactName" := Eval(vars, raw.artifactName)];
      vars := vars["CompileCmd" := Eval(vars, raw.compileCmd)];
      vars := vars["ExecuteCmd" := Eval(vars, raw.executeCmd)];
      return true;
    }

    /** The option keys are replaced by their options in place, and the joined options become Args. */
    method EvalCompileCmd(keys: seq<string>) returns (cmd: Command)
      requires "CompileCmd" in vars
      ensures cmd.Command? <==> forall k :: k in keys ==> k in raw.options
      ensures cmd.UnknownOption? ==> cmd.key in keys && cmd.key !in raw.options
      ensures cmd.Command? ==>
                cmd.args == Words(Eval(vars["Args" := Join(Chosen(raw, keys), " ")], vars["CompileCmd"]))
    {
      var compileOptKeys := keys;
      for i := 0 to |keys|
        invariant |compileOptKeys| == |keys| && compileOptKeys[i..] == keys[i..]
        invariant forall j :: 0 <= j < i ==> keys[j] in raw.options && compileOptKeys[j] == raw.options[keys[j]]
      {
        var key := compileOptKeys[i];
        assert key == compileOptKeys[i..][0] == keys[i];
        if key !in raw.options {
          return UnknownOption(key);
        }
        compileOptKeys := compileOptKeys[i := raw.options[key]];
        assert compileOptKeys[i + 1..] == keys[i..][1..] == keys[i + 1..];
      }
      assert compileOptKeys == Chosen(raw, keys);
      cmd := Command(Words(Eval(vars["Args" := Join(compileOptKeys, " ")], vars["CompileCmd"])));
    }

    function RunCmd(): seq<string>
      requires "ExecuteCmd" in vars
      reads this
    {
      Words(vars["ExecuteCmd"])
    }
  }

  /**
   * Evaluating the compile command once at configuration time is harmless: together with the second evaluation it
   * gives what one evaluation under the submission's own table gives.
   */
  lemma CompileCmdInTwoStages(raw: RawConf, judgeEnv: Table, args: string)
    requires forall item :: item in raw.environment ==> item.Setting?
    requires var t := CompileTable(raw, judgeEnv);
             && "Args" !in t && "CompileCmd" !in t && "ExecuteCmd" !in t
             && CleanValues(t) && CleanText(Tokens(raw.compileCmd)) && Separated(t, Tokens(raw.compileCmd))
    ensures var vars := NormalizedTable(raw, judgeEnv);
            Eval(vars["Args" := args], vars["CompileCmd"]) == Eval(vars["Args" := args], raw.compileCmd)
  {
    LaterTable(raw, judgeEnv, args);
    StagedEvaluation(CompileTable(raw, judgeEnv), NormalizedTable(raw, judgeEnv)["Args" := args], raw.compileCmd);
  }

  /**
   * For every configuration whose settings parse: the two evaluations of the compile command give what one evaluation
   * under the submission's options gives, for all options, exactly if both templates have the same shape around Args.
   */
  lemma CompileCmdInTwoStagesIff(raw: RawConf, judgeEnv: Table)
    requires forall item :: item in raw.environment ==> item.Setting?
    ensures var vars := NormalizedTable(raw, judgeEnv);
            AgreeForAllValues(vars, "Args", vars["CompileCmd"], raw.compileCmd)
            <==> Shape(vars, "Args", Tokens(vars["CompileCmd"])) == Shape(vars, "Args", Tokens(raw.compileCmd))
  {
    var vars := NormalizedTable(raw, judgeEnv);
    AgreeForAllValuesIff(vars, "Args", vars["CompileCmd"], raw.compileCmd);
  }

  /** The three tables that the compile command meets later keep what it was first evaluated under. */
  lemma LaterTable(raw: RawConf, judgeEnv: Table, args: string)
    requires forall item :: item in raw.environment ==> item.Setting?
    requires var t := CompileTable(raw, judgeEnv); "Args" !in t && "CompileCmd" !in t && "ExecuteCmd" !in t
    ensures var t, vars := CompileTable(raw, judgeEnv), NormalizedTable(raw, judgeEnv);
            && "CompileCmd" in vars && vars["CompileCmd"] == Eval(t, raw.compileCmd)
            && Extends(vars["Args" := args], t)
  {
  }

  /** A variable whose value is Args, after a stray dollar sign: the submission's options take the place of the text. */
  lemma StrayDollarTakesOptions(raw: RawConf, judgeEnv: Table, name: string, args: string)
    requires forall item :: item in raw.environment ==> item.Setting?
    requires IsWord(name) && raw.compileCmd == "$" + ("$" + name)
    requires var t := CompileTable(raw, judgeEnv);
             && name in t && t[name] == "Args"
             && "Args" !in t && "CompileCmd" !in t && "ExecuteCmd" !in t
    ensures var vars := NormalizedTable(raw, judgeEnv);
            && "CompileCmd" in vars
            && EvalWith(vars, "Args", args, vars["CompileCmd"]) == args
            && EvalWith(vars, "Args", args, raw.compileCmd) == "$" + "Args"
  {
    LaterTable(raw, judgeEnv, args);
    StrayDollarCanCapture(CompileTable(raw, judgeEnv), NormalizedTable(raw, judgeEnv)["Args" := args], name, "Args");
  }

  lemma EvalOfText(table: Table, s: string)
    requires DollarFree(s)
    ensures Eval(table, s) == s
  {
    TokensAfterText(s, "");
    RenderText(table, s, []);
    assert s + "" == s && TextTokens(s) + [] == TextTokens(s);
  }

  ghost predicate IsReserved(name: string) {
    name in {"Compiler", "SourceName", "ArtifactName", "CompileCmd", "ExecuteCmd", "Args"}
  }

  lemma OneSetting(raw: RawConf, key: string, val: string)
    requires |raw.environment| == 1 && raw.environment[0] == Setting(key, val) && DollarFree(val) && !IsReserved(key)
    ensures var t := CompileTable(raw, map[]);
            key in t && t[key] == val && "Args" !in t && "CompileCmd" !in t && "ExecuteCmd" !in t
  {
    EvalOfText(map[], val);
    assert raw.environment[..0] == [];
    assert WithSettings(raw.environment, map[]) == map[key := val];
  }

  /** One setting suffices for that, whatever else the configuration says. */
  lemma OneSettingTakesOptions(raw: RawConf, name: string, args: string)
    requires IsWord(name) && !IsReserved(name)
    requires |raw.environment| == 1 && raw.environment[0] == Setting(name, "Args")
    requires raw.compileCmd == "$" + ("$" + name)
    ensures var vars := NormalizedTable(raw, map[]);
            && "CompileCmd" in vars
            && EvalWith(vars, "Args", args, vars["CompileCmd"]) == args
            && EvalWith(vars, "Args", args, raw.compileCmd) == "$" + "Args"
  {
    OneSetting(raw, name, "Args");
    StrayDollarTakesOptions(raw, map[], name, args);
  }

  lemma ShortNamesAreFree(name: string)
    requires |name| == 1
    ensures !IsReserved(name)
  {
  }

  /** The configuration X=Args with the command $$X: instead of the text $Args it yields the options. */
  lemma OptionsReplaceText(raw: RawConf, args: string)
    requires |raw.environment| == 1 && raw.environment[0] == Setting(['X'], "Args")
    requires raw.compileCmd == "$" + ("$" + ['X'])
    ensures var vars := NormalizedTable(raw, map[]);
            && "CompileCmd" in vars
            && EvalWith(vars, "Args", args, vars["CompileCmd"]) == args
            && EvalWith(vars, "Args", args, raw.compileCmd) == "$" + "Args"
  {
    ShortNamesAreFree(['X']);
    OneSettingTakesOptions(raw, ['X'], args);
  }
}
