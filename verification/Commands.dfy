/** The words of commands (judge/language.go, split and evalCompileCmd). */
module Commands {
  import opened Language
  import opened LanguageTheory
  import opened Seqs
  import opened Templates

  // ----- laws that determine Words

  lemma {:induction false} RunLenUnique(s: string, n: nat)
    requires n <= |s| && ' ' !in s[..n] && (n < |s| ==> s[n] == ' ')
    ensures RunLen(s) == n
  {
    if n > 0 {
      assert s[..n] == [s[0]] + s[1..][..n - 1];
      RunLenUnique(s[1..], n - 1);
    }
  }

  /** A word is its only word. */
  lemma WordAlone(w: string)
    requires w != "" && ' ' !in w
    ensures Words(w) == [w]
  {
    TakeAll(w);
    RunLenUnique(w, |w|);
    assert w[|w|..] == "" && w[0] in w;
  }

  lemma RunLenBefore(a: string, b: string)
    ensures RunLen(a + " " + b) == RunLen(a)
    ensures (a + " " + b)[..RunLen(a)] == a[..RunLen(a)]
    ensures (a + " " + b)[RunLen(a)..] == a[RunLen(a)..] + " " + b
  {
    var s, n := a + " " + b, RunLen(a);
    assert s[..n] == a[..n];
    RunLenUnique(s, n);
  }

  /** A space separates words. */
  lemma {:induction false} WordsConcat(a: string, b: string)
    ensures Words(a + " " + b) == Words(a) + Words(b)
    decreases |a|
  {
    var s := a + " " + b;
    if a == "" {
      assert s[0] == ' ' && s[1..] == b;
    } else if a[0] == ' ' {
      assert s[0] == ' ' && s[1..] == a[1..] + " " + b;
      WordsConcat(a[1..], b);
    } else {
      var n := RunLen(a);
      RunLenBefore(a, b);
      WordsConcat(a[n..], b);
      assert s[0] == a[0];
      ConcatAssociative([a[..n]], Words(a[n..]), Words(b));
    }
  }

  /** Splitting that obeys these laws is Words. */
  lemma {:induction false} WordsAreUnique(split: string -> seq<string>, s: string)
    requires split("") == []
    requires forall w :: w != "" && ' ' !in w ==> split(w) == [w]
    requires forall a, b :: split(a + " " + b) == split(a) + split(b)
    ensures split(s) == Words(s)
    decreases |s|
  {
    if ' ' in s {
      var i: nat :| i < |s| && s[i] == ' ';
      assert s == s[..i] + " " + s[i + 1..];
      WordsAreUnique(split, s[..i]);
      WordsAreUnique(split, s[i + 1..]);
      WordsConcat(s[..i], s[i + 1..]);
    } else if s != "" {
      WordAlone(s);
    }
  }

  // ----- joined options

  /** Joining two lists puts one separator between them. */
  lemma {:induction false} JoinConcat(a: seq<string>, b: seq<string>, sep: string)
    requires a != [] && b != []
    ensures Join(a + b, sep) == Join(a, sep) + sep + Join(b, sep)
  {
    assert (a + b)[1..] == a[1..] + b;
    if |a| > 1 {
      JoinConcat(a[1..], b, sep);
    } else {
      assert a[1..] + b == b;
    }
  }

  lemma JoinOne(part: string, sep: string)
    ensures Join([part], sep) == part && Join([], sep) == ""
  {
  }

  /** The words of all these texts, in order. */
  function AllWords(parts: seq<string>): seq<string> {
    if parts == [] then [] else Words(parts[0]) + AllWords(parts[1..])
  }

  /** The words of the joined options are those of the options. */
  lemma {:induction false} JoinedWords(parts: seq<string>)
    ensures Words(Join(parts, " ")) == AllWords(parts)
  {
    if |parts| == 1 {
      assert Words(parts[0]) + AllWords(parts[1..]) == Words(parts[0]);
    } else if parts != [] {
      JoinedWords(parts[1..]);
      WordsConcat(parts[0], Join(parts[1..], " "));
    }
  }

  /** The words of the options that these keys stand for. */
  function OptionWords(options: map<string, string>, keys: seq<string>): seq<string>
    requires forall k :: k in keys ==> k in options
  {
    if keys == [] then [] else Words(options[keys[0]]) + OptionWords(options, keys[1..])
  }

  lemma {:induction false} ChosenWords(raw: RawConf, keys: seq<string>)
    requires forall k :: k in keys ==> k in raw.options
    ensures AllWords(Chosen(raw, keys)) == OptionWords(raw.options, keys)
  {
    if keys != [] {
      ChosenWords(raw, keys[1..]);
      assert Chosen(raw, keys)[1..] == Chosen(raw, keys[1..]);
    }
  }

  // ----- evaluating piece by piece

  lemma EvalText(table: Table, text: string, rest: string)
    requires DollarFree(text)
    ensures Eval(table, text + rest) == text + Eval(table, rest)
  {
    TokensAfterText(text, rest);
    RenderText(table, text, Tokens(rest));
  }

  /** A $name that no word character follows. */
  lemma EvalBare(table: Table, name: string, rest: string)
    requires IsWord(name) && WordLen(rest) == 0
    ensures Eval(table, "$" + name + rest)
         == (if name in table then table[name] else "$" + name) + Eval(table, rest)
  {
    TokensAfterBare(name, rest);
    assert name + rest[..0] == name && rest[0..] == rest;
    RenderCons(table, Bare(name), Tokens(rest));
  }

  lemma EvalBraced(table: Table, name: string, rest: string)
    requires IsWord(name)
    ensures Eval(table, "${" + name + "}" + rest)
         == (if name in table then table[name] else "${" + name + "}") + Eval(table, rest)
  {
    TokensAfterBraced(name, rest);
    RenderCons(table, Braced(name), Tokens(rest));
  }

  // ----- the command of a usual configuration

  /** The part of the command from the source file on. */
  function UsualEnd(): string {
    " " + ("${" + "SourceName" + "}" + (" -o " + ("${" + "ArtifactName" + "}" + "")))
  }

  /** $Compiler flags $Args ${SourceName} -o ${ArtifactName} */
  function Usual(flags: string): string {
    "$" + "Compiler" + (" " + flags + " " + ("$" + "Args" + UsualEnd()))
  }

  /** Its parts, once the variables are replaced. */
  function Spelt(compiler: string, flags: string, args: string, source: string, artifact: string): string {
    compiler + (" " + flags + " " + (args + (" " + (source + (" -o " + artifact)))))
  }

  ghost predicate Defines(table: Table, compiler: string, source: string, artifact: string) {
    && "Compiler" in table && table["Compiler"] == compiler
    && "SourceName" in table && table["SourceName"] == source
    && "ArtifactName" in table && table["ArtifactName"] == artifact
  }

  lemma SpaceEndsWord(s: string)
    ensures WordLen(" " + s) == 0
  {
  }

  /** Text and a name in braces. */
  lemma EvalTextBraced(table: Table, text: string, name: string, val: string, rest: string)
    requires DollarFree(text) && IsWord(name) && name in table && table[name] == val
    ensures Eval(table, text + ("${" + name + "}" + rest)) == text + (val + Eval(table, rest))
  {
    EvalText(table, text, "${" + name + "}" + rest);
    EvalBraced(table, name, rest);
  }

  lemma UsualEndEval(table: Table, compiler: string, source: string, artifact: string)
    requires Defines(table, compiler, source, artifact)
    ensures Eval(table, UsualEnd()) == " " + (source + (" -o " + artifact))
  {
    EvalTextBraced(table, " ", "SourceName", source, " -o " + ("${" + "ArtifactName" + "}" + ""));
    EvalTextBraced(table, " -o ", "ArtifactName", artifact, "");
    assert Eval(table, "") == "" && artifact + "" == artifact;
  }

  /** The first stage leaves the options open. */
  lemma UsualFirstStage(table: Table, compiler: string, flags: string, source: string, artifact: string)
    requires Defines(table, compiler, source, artifact) && "Args" !in table && DollarFree(flags)
    ensures Eval(table, Usual(flags)) == Spelt(compiler, flags, "$" + "Args", source, artifact)
  {
    var args := "$" + "Args" + UsualEnd();
    SpaceEndsWord(flags + " " + args);
    assert " " + (flags + " " + args) == " " + flags + " " + args;
    EvalBare(table, "Compiler", " " + flags + " " + args);
    EvalText(table, " " + flags + " ", args);
    EvalBare(table, "Args", UsualEnd());
    UsualEndEval(table, compiler, source, artifact);
  }

  /** The second stage fills them in. */
  lemma UsualSecondStage(table: Table, compiler: string, flags: string, args: string, source: string, artifact: string)
    requires "Args" in table && table["Args"] == args
    requires DollarFree(compiler) && DollarFree(flags) && DollarFree(source) && DollarFree(artifact)
    ensures Eval(table, Spelt(compiler, flags, "$" + "Args", source, artifact))
         == Spelt(compiler, flags, args, source, artifact)
  {
    var rest := " " + (source + (" -o " + artifact));
    SpaceEndsWord(source + (" -o " + artifact));
    EvalText(table, compiler, " " + flags + " " + ("$" + "Args" + rest));
    EvalText(table, " " + flags + " ", "$" + "Args" + rest);
    EvalBare(table, "Args", rest);
    EvalOfText(table, rest);
  }

  lemma FourSpaces(compiler: string, flags: string, args: string, source: string, artifact: string)
    ensures Spelt(compiler, flags, args, source, artifact)
         == compiler + " " + (flags + " " + (args + " " + (source + " " + ("-o" + " " + artifact))))
  {
    assert " -o " + artifact == " " + ("-o" + " " + artifact);
  }

  lemma SpeltWords(compiler: string, flags: string, args: string, source: string, artifact: string)
    ensures Words(Spelt(compiler, flags, args, source, artifact))
         == Words(compiler) + (Words(flags) + (Words(args) + (Words(source) + (["-o"] + Words(artifact)))))
  {
    FourSpaces(compiler, flags, args, source, artifact);
    WordsConcat(compiler, flags + " " + (args + " " + (source + " " + ("-o" + " " + artifact))));
    WordsConcat(flags, args + " " + (source + " " + ("-o" + " " + artifact)));
    WordsConcat(args, source + " " + ("-o" + " " + artifact));
    WordsConcat(source, "-o" + " " + artifact);
    WordsConcat("-o", artifact);
    WordAlone("-o");
  }

  /**
   * For every configuration with the usual compile command, and every choice of options: after both stages the words
   * are those of the compiler, the flags, the options in their order, the source file, -o and the artifact.
   */
  lemma UsualCommand(raw: RawConf, judgeEnv: Table, flags: string, keys: seq<string>)
    requires forall item :: item in raw.environment ==> item.Setting?
    requires forall k :: k in keys ==> k in raw.options
    requires raw.compileCmd == Usual(flags) && DollarFree(flags) && "Args" !in WithSettings(raw.environment, judgeEnv)
    requires DollarFree(raw.compiler) && DollarFree(raw.sourceName) && DollarFree(raw.artifactName)
    ensures var vars := NormalizedTable(raw, judgeEnv);
            && "CompileCmd" in vars
            && Words(Eval(vars["Args" := Join(Chosen(raw, keys), " ")], vars["CompileCmd"]))
               == Words(raw.compiler) + (Words(flags) + (OptionWords(raw.options, keys) + (Words(raw.sourceName)
                  + (["-o"] + Words(raw.artifactName)))))
  {
    var table, args := CompileTable(raw, judgeEnv), Join(Chosen(raw, keys), " ");
    UsualVariables(raw, judgeEnv);
    UsualFirstStage(table, raw.compiler, flags, raw.sourceName, raw.artifactName);
    UsualSecondStage(NormalizedTable(raw, judgeEnv)["Args" := args], raw.compiler, flags, args, raw.sourceName,
                     raw.artifactName);
    SpeltWords(raw.compiler, flags, args, raw.sourceName, raw.artifactName);
    JoinedWords(Chosen(raw, keys));
    ChosenWords(raw, keys);
  }

  lemma UsualVariables(raw: RawConf, judgeEnv: Table)
    requires forall item :: item in raw.environment ==> item.Setting?
    requires DollarFree(raw.compiler) && DollarFree(raw.sourceName) && DollarFree(raw.artifactName)
    requires "Args" !in WithSettings(raw.environment, judgeEnv)
    ensures var table, vars := CompileTable(raw, judgeEnv), NormalizedTable(raw, judgeEnv);
            && "Args" !in table && Defines(table, raw.compiler, raw.sourceName, raw.artifactName)
            && "CompileCmd" in vars && vars["CompileCmd"] == Eval(table, raw.compileCmd)
  {
    var t0 := WithSettings(raw.environment, judgeEnv);
    var t1 := t0["Compiler" := raw.compiler];
    EvalOfText(t0, raw.compiler);
    EvalOfText(t1, raw.sourceName);
    EvalOfText(t1["SourceName" := raw.sourceName], raw.artifactName);
  }

  // ----- a name with an underscore

  /** $CLASS_NAME.java, where CLASS_NAME is known. */
  lemma ClassNameIsReplaced(table: Table, main: string)
    requires "CLASS_NAME" in table && table["CLASS_NAME"] == main
    ensures Eval(table, "$" + "CLASS_NAME" + ".java") == main + ".java"
  {
    EvalBare(table, "CLASS_NAME", ".java");
    EvalOfText(table, ".java");
  }
}
