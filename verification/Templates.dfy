/** Variable substitution in command templates (judge/language.go, eval) and its evaluation in two stages. */
module Templates {
  import opened Seqs

  type Table = map<string, string>

  predicate IsWordChar(c: char) {
    '0' <= c <= '9' || 'A' <= c <= 'Z' || 'a' <= c <= 'z' || c == '_'
  }

  /** The word characters one by one. */
  lemma WordChars(c: char)
    ensures IsWordChar(c)
            <==> c in "0123456789" || c in "ABCDEFGHIJKLMNOPQRSTUVWXYZ" || c in "abcdefghijklmnopqrstuvwxyz" || c == '_'
  {
    CharRange("0123456789", '0', c);
    CharRange("ABCDEFGHIJKLMNOPQRSTUVWXYZ", 'A', c);
    CharRange("abcdefghijklmnopqrstuvwxyz", 'a', c);
  }

  lemma CharRange(range: string, first: char, c: char)
    requires forall i :: 0 <= i < |range| ==> range[i] as int == first as int + i
    ensures c in range <==> first as int <= c as int < first as int + |range|
  {
    if first as int <= c as int < first as int + |range| {
      assert range[c as int - first as int] == c;
    }
  }

  /** The number of word characters that s starts with. */
  function WordLen(s: string): (n: nat)
    ensures n <= |s|
  {
    if s == [] || !IsWordChar(s[0]) then 0 else 1 + WordLen(s[1..])
  }

  /** Those characters are word characters, and the next one is not. */
  lemma {:induction false} WordLenIsLongest(s: string)
    ensures forall i :: 0 <= i < WordLen(s) ==> IsWordChar(s[i])
    ensures WordLen(s) < |s| ==> !IsWordChar(s[WordLen(s)])
  {
    if s != [] && IsWordChar(s[0]) {
      WordLenIsLongest(s[1..]);
    }
  }

  ghost predicate IsWord(s: string) {
    s != [] && forall i :: 0 <= i < |s| ==> IsWordChar(s[i])
  }

  /** One match of the variable pattern, ${name} or $name, or one character outside any match. */
  datatype Token = Text(c: char) | Braced(name: string) | Bare(name: string)

  function Raw(t: Token): string {
    match t
    case Text(c) => [c]
    case Braced(name) => "${" + name + "}"
    case Bare(name) => "$" + name
  }

  /** The leftmost token: a name is as long as possible, and a brace without its partner is text. */
  function FirstToken(s: string): (t: Token)
    requires s != []
    ensures 0 < |Raw(t)| <= |s|
  {
    if s[0] == '$' && |s| > 1 && s[1] == '{' then
      var n := WordLen(s[2..]);
      if n > 0 && 2 + n < |s| && s[2 + n] == '}' then Braced(s[2..][..n])
      else Text(s[0])
    else if s[0] == '$' then
      var n := WordLen(s[1..]);
      if n > 0 then Bare(s[1..][..n])
      else Text(s[0])
    else Text(s[0])
  }

  /** The first token spells the start of s, and a name consists of word characters. */
  lemma FirstTokenSpells(s: string)
    requires s != []
    ensures Raw(FirstToken(s)) == s[..|Raw(FirstToken(s))|]
    ensures FirstToken(s).Text? || IsWord(FirstToken(s).name)
  {
    if FirstToken(s).Braced? {
      BracedSpells(s);
    } else if FirstToken(s).Bare? {
      WordLenIsLongest(s[1..]);
      TakeSplit(s, 1, WordLen(s[1..]));
      assert s[..1] == "$";
    }
  }

  lemma BracedSpells(s: string)
    requires s != [] && FirstToken(s).Braced?
    ensures var t := FirstToken(s);
            Raw(t) == s[..|Raw(t)|] && IsWord(t.name)
  {
    var n := WordLen(s[2..]);
    WordLenIsLongest(s[2..]);
    TakeSplit(s, 2, n);
    TakeOneMore(s, n + 2);
    assert s[..2] == "${" && [s[n + 2]] == "}";
  }

  function Tokens(s: string): (ts: seq<Token>)
    decreases |s|
  {
    if s == [] then [] else
      var t := FirstToken(s);
      [t] + Tokens(s[|Raw(t)|..])
  }

  function Value(table: Table, t: Token): string {
    if !t.Text? && t.name in table then table[t.name] else Raw(t)
  }

  function Render(table: Table, ts: seq<Token>): string {
    if ts == [] then [] else Value(table, ts[0]) + Render(table, ts[1..])
  }

  lemma RenderCons(table: Table, t: Token, ts: seq<Token>)
    ensures Render(table, [t] + ts) == Value(table, t) + Render(table, ts)
  {
    DropAppend([t], ts);
  }

  /** Replaces every variable that the table knows and leaves the others as they are. */
  function Eval(table: Table, s: string): string {
    Render(table, Tokens(s))
  }

  ghost predicate Unresolved(table: Table, t: Token) {
    !t.Text? && t.name !in table
  }

  ghost predicate Extends(larger: Table, smaller: Table) {
    forall k :: k in smaller ==> k in larger && larger[k] == smaller[k]
  }

  ghost predicate DollarFree(s: string) {
    '$' !in s
  }

  /** No text outside variables contains a dollar sign. */
  ghost predicate CleanText(ts: seq<Token>) {
    forall t :: t in ts && t.Text? ==> t.c != '$'
  }

  ghost predicate CleanValues(table: Table) {
    forall k :: k in table ==> DollarFree(table[k])
  }

  ghost predicate ProperNames(ts: seq<Token>) {
    forall t :: t in ts && !t.Text? ==> IsWord(t.name)
  }

  /** After the first stage, no unresolved $name is followed by a word character. */
  predicate Separated(table: Table, ts: seq<Token>) {
    ts == []
    || (&& Separated(table, ts[1..])
        && (ts[0].Bare? && ts[0].name !in table ==> WordLen(Render(table, ts[1..])) == 0))
  }

  lemma {:induction false} TokensAreProper(s: string)
    ensures ProperNames(Tokens(s))
    decreases |s|
  {
    if s != [] {
      FirstTokenSpells(s);
      TokensAreProper(s[|Raw(FirstToken(s))|..]);
    }
  }

  /** Rendering under the empty table gives the template back. */
  lemma {:induction false} TokensLoseNothing(s: string)
    ensures Render(map[], Tokens(s)) == s
    decreases |s|
  {
    if s != [] {
      var t := FirstToken(s);
      FirstTokenSpells(s);
      TokensLoseNothing(s[|Raw(t)|..]);
      RenderCons(map[], t, Tokens(s[|Raw(t)|..]));
      TakeDrop(s, |Raw(t)|);
    }
  }

  // ----- how the output of the first stage splits into tokens

  function TextTokens(s: string): (ts: seq<Token>) {
    if s == [] then [] else [Text(s[0])] + TextTokens(s[1..])
  }

  lemma TokensCons(s: string, t: Token, rest: string)
    requires s == Raw(t) + rest && s != [] && FirstToken(s) == t
    ensures Tokens(s) == [t] + Tokens(rest)
  {
    DropAppend(Raw(t), rest);
  }

  lemma {:induction false} TokensAfterText(text: string, rest: string)
    requires DollarFree(text)
    ensures Tokens(text + rest) == TextTokens(text) + Tokens(rest)
  {
    if text == [] {
      assert text + rest == rest;
    } else {
      var s, first := text + rest, [Text(text[0])];
      assert FirstToken(s) == first[0];
      assert s[1..] == text[1..] + rest;
      TokensAfterText(text[1..], rest);
      ConcatAssociative(first, TextTokens(text[1..]), Tokens(rest));
    }
  }

  lemma {:induction false} WordLenAppend(word: string, rest: string)
    requires forall i :: 0 <= i < |word| ==> IsWordChar(word[i])
    ensures WordLen(word + rest) == |word| + WordLen(rest)
  {
    if word == [] {
      assert word + rest == rest;
    } else {
      assert (word + rest)[1..] == word[1..] + rest;
      WordLenAppend(word[1..], rest);
    }
  }

  lemma TokensAfterBraced(name: string, rest: string)
    requires IsWord(name)
    ensures Tokens("${" + name + "}" + rest) == [Braced(name)] + Tokens(rest)
  {
    var s := "${" + name + "}" + rest;
    ConcatAssociative("${" + name, "}", rest);
    ConcatAssociative("${", name, "}" + rest);
    DropAppend("${", name + ("}" + rest));
    WordLenAppend(name, "}" + rest);
    DropAppend(name, "}" + rest);
    assert s[2 + |name|] == '}';
    TokensCons(s, Braced(name), rest);
  }

  /** An unresolved $name swallows the word characters that follow it. */
  lemma TokensAfterBare(name: string, rest: string)
    requires IsWord(name)
    ensures var n := WordLen(rest);
            Tokens("$" + name + rest) == [Bare(name + rest[..n])] + Tokens(rest[n..])
  {
    var n := WordLen(rest);
    FirstTokenBare(name, rest);
    TakeDrop(rest, n);
    Regroup("$", name, rest[..n], rest[n..]);
    TokensCons("$" + name + rest, Bare(name + rest[..n]), rest[n..]);
  }

  lemma Regroup(a: string, b: string, c: string, d: string)
    ensures a + b + (c + d) == a + (b + c) + d
  {
  }

  lemma DollarThen(name: string, rest: string)
    ensures var s := "$" + name + rest;
            |s| == 1 + |name| + |rest| && s[0] == '$' && s[1..] == name + rest
  {
  }

  lemma FirstTokenBare(name: string, rest: string)
    requires IsWord(name)
    ensures FirstToken("$" + name + rest) == Bare(name + rest[..WordLen(rest)])
  {
    DollarThen(name, rest);
    WordLenAppend(name, rest);
    TakeDropAppend(name, rest, WordLen(rest));
    assert ("$" + name + rest)[1] == ("$" + name + rest)[1..][0] == name[0];
  }

  /** The tokens of the first stage's output when nothing runs together: values turn into text, the rest stays. */
  function Staged(table: Table, ts: seq<Token>): seq<Token> {
    if ts == [] then []
    else (if !ts[0].Text? && ts[0].name in table then TextTokens(table[ts[0].name]) else [ts[0]])
         + Staged(table, ts[1..])
  }

  lemma {:induction false} TokensOfOutput(table: Table, ts: seq<Token>)
    requires CleanText(ts) && CleanValues(table) && ProperNames(ts) && Separated(table, ts)
    ensures Tokens(Render(table, ts)) == Staged(table, ts)
  {
    if ts != [] {
      var t, rest := ts[0], Render(table, ts[1..]);
      TokensOfOutput(table, ts[1..]);
      if !t.Text? && t.name in table {
        TokensAfterText(table[t.name], rest);
      } else {
        match t
        case Text(c) =>
          TokensAfterText([c], rest);
          assert TextTokens([c]) == [t] + TextTokens([]);
        case Braced(name) =>
          TokensAfterBraced(name, rest);
        case Bare(name) =>
          TokensAfterBare(name, rest);
          assert name + rest[..0] == name && rest[0..] == rest;
      }
    }
  }

  lemma {:induction false} RenderText(table: Table, text: string, ts: seq<Token>)
    ensures Render(table, TextTokens(text) + ts) == text + Render(table, ts)
  {
    if text == [] {
      assert TextTokens(text) + ts == ts;
    } else {
      RenderText(table, text[1..], ts);
      ConcatAssociative([Text(text[0])], TextTokens(text[1..]), ts);
      RenderCons(table, Text(text[0]), TextTokens(text[1..]) + ts);
      HeadFirst(text);
      ConcatAssociative([text[0]], text[1..], Render(table, ts));
    }
  }

  lemma {:induction false} RenderStaged(table: Table, larger: Table, ts: seq<Token>)
    requires Extends(larger, table)
    ensures Render(larger, Staged(table, ts)) == Render(larger, ts)
  {
    if ts != [] {
      RenderStaged(table, larger, ts[1..]);
      if !ts[0].Text? && ts[0].name in table {
        RenderText(larger, table[ts[0].name], Staged(table, ts[1..]));
      }
    }
  }

  /** Partial evaluation is sound: evaluating early under fewer variables changes nothing. */
  lemma StagedEvaluation(table: Table, larger: Table, s: string)
    requires Extends(larger, table)
    requires CleanText(Tokens(s)) && CleanValues(table) && Separated(table, Tokens(s))
    ensures Eval(larger, Eval(table, s)) == Eval(larger, s)
  {
    TokensAreProper(s);
    TokensOfOutput(table, Tokens(s));
    RenderStaged(table, larger, Tokens(s));
  }

  // ----- the separation condition is necessary

  function Dollars(s: string): nat {
    multiset(s)['$']
  }

  lemma DollarsConcat(a: string, b: string)
    ensures Dollars(a + b) == Dollars(a) + Dollars(b)
    ensures DollarFree(a) ==> Dollars(a) == 0
  {
  }

  /** A larger table that gives every variable left unresolved the value $$. */
  ghost predicate Probes(larger: Table, table: Table, ts: seq<Token>) {
    && Extends(larger, table)
    && (forall t :: t in ts && Unresolved(table, t) ==> t.name in larger)
    && (forall k :: k in larger && k !in table ==> larger[k] == "$$")
  }

  /** a loses dollars against b, or else characters. */
  ghost predicate AtMost(a: string, b: string) {
    Dollars(a) < Dollars(b) || (Dollars(a) == Dollars(b) && |a| <= |b|)
  }

  ghost predicate Less(a: string, b: string) {
    Dollars(a) < Dollars(b) || (Dollars(a) == Dollars(b) && |a| < |b|)
  }

  lemma AtMostConcat(x: string, a: string, y: string, b: string)
    requires AtMost(a, b) && AtMost(x, y)
    ensures AtMost(x + a, y + b)
    ensures Less(a, b) || Less(x, y) ==> Less(x + a, y + b)
  {
  }

  ghost function TwoStages(larger: Table, table: Table, ts: seq<Token>): string {
    Render(larger, Tokens(Render(table, ts)))
  }

  /** Two stages never gain dollars or length against one stage, and lose some as soon as a name runs into text. */
  lemma {:induction false} ProbeShows(larger: Table, table: Table, ts: seq<Token>)
    requires CleanText(ts) && CleanValues(table) && ProperNames(ts) && Probes(larger, table, ts)
    ensures AtMost(TwoStages(larger, table, ts), Render(larger, ts))
    ensures !Separated(table, ts) ==> Less(TwoStages(larger, table, ts), Render(larger, ts))
  {
    if ts != [] {
      var t, later := ts[0], ts[1..];
      var rest, direct := Render(table, later), Render(larger, later);
      ProbeShows(larger, table, later);
      if t.Text? || t.name in table {
        ProbeShowsText(larger, Value(table, t), rest, direct);
      } else if t.Braced? {
        ProbeShowsBraced(larger, t.name, rest, direct);
      } else {
        ProbeShowsBare(larger, table, t.name, rest, direct);
      }
    }
  }

  lemma ProbeShowsText(larger: Table, v: string, rest: string, direct: string)
    requires DollarFree(v)
    requires AtMost(Render(larger, Tokens(rest)), direct)
    ensures AtMost(Render(larger, Tokens(v + rest)), v + direct)
    ensures Less(Render(larger, Tokens(rest)), direct) ==> Less(Render(larger, Tokens(v + rest)), v + direct)
  {
    TokensAfterText(v, rest);
    RenderText(larger, v, Tokens(rest));
    AtMostConcat(v, Render(larger, Tokens(rest)), v, direct);
  }

  lemma ProbeShowsBraced(larger: Table, name: string, rest: string, direct: string)
    requires IsWord(name) && name in larger && larger[name] == "$$"
    requires AtMost(Render(larger, Tokens(rest)), direct)
    ensures var staged := Render(larger, Tokens("${" + name + "}" + rest));
            && AtMost(staged, "$$" + direct)
            && (Less(Render(larger, Tokens(rest)), direct) ==> Less(staged, "$$" + direct))
  {
    TokensAfterBraced(name, rest);
    RenderCons(larger, Braced(name), Tokens(rest));
    AtMostConcat("$$", Render(larger, Tokens(rest)), "$$", direct);
  }

  lemma ProbeShowsBare(larger: Table, table: Table, name: string, rest: string, direct: string)
    requires CleanValues(table) && Probes(larger, table, [Bare(name)])
    requires IsWord(name) && name !in table
    requires AtMost(Render(larger, Tokens(rest)), direct)
    ensures var staged := Render(larger, Tokens("$" + name + rest));
            && AtMost(staged, "$$" + direct)
            && (Less(Render(larger, Tokens(rest)), direct) || WordLen(rest) > 0 ==> Less(staged, "$$" + direct))
  {
    var n := WordLen(rest);
    var merged, after := Value(larger, Bare(name + rest[..n])), Render(larger, Tokens(rest[n..]));
    BareSplits(larger, name, rest);
    MergedValue(larger, table, name, rest[..n]);
    DollarsConcat(rest[..n], after);
    DollarsConcat(merged, after);
    DollarsConcat("$$", direct);
    if n == 0 {
      assert Bare(name) in [Bare(name)] && Unresolved(table, Bare(name));
      assert name + rest[..n] == name;
    }
  }

  /** The word that an unresolved name swallows is lost to the rest. */
  lemma BareSplits(larger: Table, name: string, rest: string)
    requires IsWord(name)
    ensures var n := WordLen(rest);
            var after := Render(larger, Tokens(rest[n..]));
            && Render(larger, Tokens("$" + name + rest)) == Value(larger, Bare(name + rest[..n])) + after
            && Render(larger, Tokens(rest)) == rest[..n] + after
            && (forall i :: 0 <= i < n ==> IsWordChar(rest[..n][i]))
            && DollarFree(rest[..n])
  {
    var n := WordLen(rest);
    WordLenIsLongest(rest);
    TakeDrop(rest, n);
    TokensAfterBare(name, rest);
    RenderCons(larger, Bare(name + rest[..n]), Tokens(rest[n..]));
    TokensAfterText(rest[..n], rest[n..]);
    RenderText(larger, rest[..n], Tokens(rest[n..]));
  }

  /** What the merged name yields under the probe: no dollars from the table, one if unknown, else just the value $$. */
  lemma MergedValue(larger: Table, table: Table, name: string, word: string)
    requires CleanValues(table) && Probes(larger, table, [Bare(name)])
    requires IsWord(name) && forall i :: 0 <= i < |word| ==> IsWordChar(word[i])
    ensures var v := Value(larger, Bare(name + word));
            Dollars(v) < 2 || v == "$$"
    ensures Dollars("$$") == 2
  {
  }

  ghost function Probe(table: Table, ts: seq<Token>): Table {
    table + map k | k in (set t | t in ts && !t.Text? :: t.name) && k !in table :: "$$"
  }

  /**
   * For clean templates and values, evaluating early is harmless for every later table exactly when no unresolved
   * $name comes to stand before a word character.
   */
  lemma SeparatedIff(table: Table, s: string)
    requires CleanText(Tokens(s)) && CleanValues(table)
    ensures HarmlessEarly(table, s) <==> Separated(table, Tokens(s))
  {
    var ts := Tokens(s);
    if Separated(table, ts) {
      forall larger | Extends(larger, table)
        ensures Eval(larger, Eval(table, s)) == Eval(larger, s)
      {
        StagedEvaluation(table, larger, s);
      }
    } else {
      var larger := Probe(table, ts);
      TokensAreProper(s);
      ProbeShows(larger, table, ts);
      assert Extends(larger, table) && Eval(larger, Eval(table, s)) != Eval(larger, s);
    }
  }

  lemma TokensOfName(name: string)
    requires IsWord(name)
    ensures Tokens("$" + name) == [Bare(name)]
  {
    TokensAfterBare(name, "");
    assert name + ""[..0] == name && "$" + name + "" == "$" + name;
  }

  lemma TokensAfterStray(name: string)
    requires IsWord(name)
    ensures Tokens("$" + ("$" + name)) == [Text('$'), Bare(name)]
  {
    TokensOfName(name);
    TokensCons("$" + ("$" + name), Text('$'), "$" + name);
  }

  lemma RenderOne(table: Table, t: Token)
    ensures Render(table, [t]) == Value(table, t)
  {
    RenderCons(table, t, []);
    assert [t] + [] == [t] && Value(table, t) + [] == Value(table, t);
  }

  /** A stray dollar sign makes the value that follows it into a name, which the second stage replaces. */
  lemma StrayDollarCanCapture(table: Table, larger: Table, name: string, val: string)
    requires IsWord(name) && IsWord(val) && name in table && table[name] == val
    requires Extends(larger, table) && val in larger
    ensures Eval(larger, Eval(table, "$" + ("$" + name))) == larger[val]
    ensures Eval(larger, "$" + ("$" + name)) == "$" + val
  {
    TokensAfterStray(name);
    TokensOfName(val);
    RenderOne(table, Bare(name));
    RenderOne(larger, Bare(name));
    RenderOne(larger, Bare(val));
    RenderCons(table, Text('$'), [Bare(name)]);
    RenderCons(larger, Text('$'), [Bare(name)]);
  }

  // ----- the exact condition, for every template and table

  ghost predicate Open(table: Table, ts: seq<Token>) {
    forall t :: t in ts && !t.Text? ==> t.name !in table
  }

  lemma {:induction false} TextTokensOpen(s: string)
    ensures forall t :: t in TextTokens(s) ==> t.Text?
  {
    if s != [] {
      TextTokensOpen(s[1..]);
    }
  }

  lemma {:induction false} StagedIsOpen(table: Table, ts: seq<Token>)
    requires ProperNames(ts)
    ensures Open(table, Staged(table, ts)) && ProperNames(Staged(table, ts))
  {
    if ts != [] {
      StagedIsOpen(table, ts[1..]);
      if !ts[0].Text? && ts[0].name in table {
        TextTokensOpen(table[ts[0].name]);
      }
    }
  }

  ghost function NamesIn(ts: seq<Token>): set<string> {
    set t | t in ts && !t.Text? :: t.name
  }

  /** Every open name stands for one character: c for this name, d for all others. */
  ghost function Probing(table: Table, names: set<string>, name: string, c: char, d: char): Table {
    table + map k | k in names && k !in table :: if k == name then [c] else [d]
  }

  lemma {:induction false} RenderOnes(larger: Table, ts: seq<Token>)
    requires forall t :: t in ts && !t.Text? ==> t.name in larger && |larger[t.name]| == 1
    ensures |Render(larger, ts)| == |ts|
    ensures forall i :: 0 <= i < |ts| ==> Value(larger, ts[i]) == [Render(larger, ts)[i]]
  {
    if ts != [] {
      RenderOnes(larger, ts[1..]);
      assert |Value(larger, ts[0])| == 1;
    }
  }

  ghost predicate SameForAll(table: Table, a: seq<Token>, b: seq<Token>) {
    forall larger :: Extends(larger, table) ==> Render(larger, a) == Render(larger, b)
  }

  lemma ProbingOpens(table: Table, names: set<string>, name: string, c: char, d: char, ts: seq<Token>)
    requires Open(table, ts) && NamesIn(ts) <= names
    ensures var larger := Probing(table, names, name, c, d);
            && Extends(larger, table)
            && (forall t :: t in ts && !t.Text? ==>
                  t.name in larger && larger[t.name] == if t.name == name then [c] else [d])
  {
    forall t | t in ts && !t.Text?
      ensures t.name in names
    {
      assert t.name in NamesIn(ts);
    }
  }

  lemma ProbeValues(table: Table, a: seq<Token>, b: seq<Token>, name: string, c: char, d: char)
    requires Open(table, a) && Open(table, b) && SameForAll(table, a, b)
    ensures |a| == |b|
    ensures var larger := Probing(table, NamesIn(a) + NamesIn(b), name, c, d);
            forall i :: 0 <= i < |a| ==> Value(larger, a[i]) == Value(larger, b[i])
  {
    var names := NamesIn(a) + NamesIn(b);
    var larger := Probing(table, names, name, c, d);
    ProbingOpens(table, names, name, c, d, a);
    ProbingOpens(table, names, name, c, d, b);
    RenderOnes(larger, a);
    RenderOnes(larger, b);
    assert Render(larger, a) == Render(larger, b);
  }

  /** The same text, or the same name, with or without braces. */
  predicate Alike(t: Token, u: Token) {
    if t.Text? || u.Text? then t == u else t.name == u.name
  }

  lemma AlikeAt(table: Table, a: seq<Token>, b: seq<Token>, i: nat)
    requires Open(table, a) && Open(table, b) && SameForAll(table, a, b)
    requires |a| == |b| && i < |a|
    ensures Alike(a[i], b[i])
  {
    var names := NamesIn(a) + NamesIn(b);
    var name := if !a[i].Text? then a[i].name else if !b[i].Text? then b[i].name else "";
    assert a[i] in a && b[i] in b;
    ProbingOpens(table, names, name, 'x', 'y', a);
    ProbingOpens(table, names, name, 'x', 'y', b);
    ProbingOpens(table, names, name, 'y', 'x', a);
    ProbingOpens(table, names, name, 'y', 'x', b);
    ProbeValues(table, a, b, name, 'x', 'y');
    ProbeValues(table, a, b, name, 'y', 'x');
    AlikeValues(a[i], b[i], name, Probing(table, names, name, 'x', 'y'), Probing(table, names, name, 'y', 'x'));
  }

  lemma AlikeValues(t: Token, u: Token, name: string, xy: Table, yx: Table)
    requires forall v :: v == t || v == u ==> (!v.Text? ==>
               v.name in xy && xy[v.name] == (if v.name == name then "x" else "y")
               && v.name in yx && yx[v.name] == (if v.name == name then "y" else "x"))
    requires !t.Text? ==> t.name == name
    requires Value(xy, t) == Value(xy, u) && Value(yx, t) == Value(yx, u)
    ensures Alike(t, u)
  {
  }

  /** Raw text tells a name in braces from one without. */
  lemma {:induction false} RawTells(table: Table, a: seq<Token>, b: seq<Token>)
    requires Open(table, a) && Open(table, b) && ProperNames(a) && ProperNames(b)
    requires |a| == |b| && forall i :: 0 <= i < |a| ==> Alike(a[i], b[i])
    requires Render(table, a) == Render(table, b)
    ensures a == b
  {
    if a != [] {
      var t, u := a[0], b[0];
      assert t in a && u in b && Alike(t, u);
      FirstRawTells(t, u, Render(table, a[1..]), Render(table, b[1..]));
      DropAppend(Raw(t), Render(table, a[1..]));
      DropAppend(Raw(u), Render(table, b[1..]));
      RawTells(table, a[1..], b[1..]);
      HeadFirst(a);
      HeadFirst(b);
    }
  }

  lemma SecondChar(t: Token, after: string)
    requires !t.Text? && IsWord(t.name)
    ensures |Raw(t) + after| > 1 && IsWordChar(t.name[0])
    ensures (Raw(t) + after)[1] == if t.Braced? then '{' else t.name[0]
  {
  }

  lemma FirstRawTells(t: Token, u: Token, after: string, after': string)
    requires Alike(t, u) && (t.Text? || IsWord(t.name))
    requires Raw(t) + after == Raw(u) + after'
    ensures t == u
  {
    if !t.Text? {
      SecondChar(t, after);
      SecondChar(u, after');
    }
  }

  /** Open token sequences that render the same under all later tables are the same. */
  lemma OpenTokensTell(table: Table, a: seq<Token>, b: seq<Token>)
    requires Open(table, a) && Open(table, b) && ProperNames(a) && ProperNames(b)
    requires SameForAll(table, a, b)
    ensures a == b
  {
    ProbeValues(table, a, b, "", 'x', 'y');
    forall i | 0 <= i < |a|
      ensures Alike(a[i], b[i])
    {
      AlikeAt(table, a, b, i);
    }
    assert Extends(table, table);
    RawTells(table, a, b);
  }

  ghost predicate HarmlessEarly(table: Table, s: string) {
    forall larger :: Extends(larger, table) ==> Eval(larger, Eval(table, s)) == Eval(larger, s)
  }

  /**
   * For every template and table: evaluating early is harmless for all later tables exactly if the output, split into
   * tokens again, leaves the same text and names as the template does.
   */
  lemma StagedEvaluationIff(table: Table, s: string)
    ensures HarmlessEarly(table, s) <==> Staged(table, Tokens(Eval(table, s))) == Staged(table, Tokens(s))
  {
    var a, b := Tokens(Eval(table, s)), Tokens(s);
    forall larger | Extends(larger, table)
      ensures Render(larger, Staged(table, a)) == Eval(larger, Eval(table, s))
      ensures Render(larger, Staged(table, b)) == Eval(larger, s)
    {
      RenderStaged(table, larger, a);
      RenderStaged(table, larger, b);
    }
    if HarmlessEarly(table, s) {
      TokensAreProper(s);
      TokensAreProper(Eval(table, s));
      StagedIsOpen(table, a);
      StagedIsOpen(table, b);
      assert SameForAll(table, Staged(table, a), Staged(table, b));
      OpenTokensTell(table, Staged(table, a), Staged(table, b));
    }
  }

  // ----- one variable that is set late

  /** A rendered character, or a place where the late variable stands. */
  datatype Item = Char(c: char) | Hole

  function Chars(s: string): (items: seq<Item>)
    ensures |items| == |s| && forall i :: 0 <= i < |s| ==> items[i] == Char(s[i])
  {
    seq(|s|, i requires 0 <= i < |s| => Char(s[i]))
  }

  /** What the tokens render to when name is left open. */
  function Shape(table: Table, name: string, ts: seq<Token>): seq<Item> {
    if ts == [] then []
    else (if !ts[0].Text? && ts[0].name == name then [Hole] else Chars(Value(table, ts[0])))
         + Shape(table, name, ts[1..])
  }

  function Fill(items: seq<Item>, val: string): string {
    if items == [] then []
    else Filled(items[0], val) + Fill(items[1..], val)
  }

  function Filled(item: Item, val: string): string {
    match item
    case Char(c) => [c]
    case Hole => val
  }

  lemma FillCons(item: Item, items: seq<Item>, val: string)
    ensures Fill([item] + items, val) == Filled(item, val) + Fill(items, val)
  {
    DropAppend([item], items);
  }

  lemma {:induction false} FillConcat(a: seq<Item>, b: seq<Item>, val: string)
    ensures Fill(a + b, val) == Fill(a, val) + Fill(b, val)
  {
    if a == [] {
      assert a + b == b;
    } else {
      FillConcat(a[1..], b, val);
      HeadFirst(a);
      ConcatAssociative([a[0]], a[1..], b);
      FillCons(a[0], a[1..] + b, val);
      ConcatAssociative(Filled(a[0], val), Fill(a[1..], val), Fill(b, val));
    }
  }

  lemma {:induction false} FillChars(s: string, val: string)
    ensures Fill(Chars(s), val) == s
  {
    if s != [] {
      FillChars(s[1..], val);
      assert Chars(s)[1..] == Chars(s[1..]);
      HeadFirst(s);
    }
  }

  lemma {:induction false} FillShape(table: Table, name: string, val: string, ts: seq<Token>)
    ensures Fill(Shape(table, name, ts), val) == Render(table[name := val], ts)
  {
    if ts != [] {
      var first := if !ts[0].Text? && ts[0].name == name then [Hole] else Chars(Value(table, ts[0]));
      FillShape(table, name, val, ts[1..]);
      FillConcat(first, Shape(table, name, ts[1..]), val);
      if !ts[0].Text? && ts[0].name == name {
        assert [Hole][1..] == [] && Fill([Hole], val) == val + [];
        assert val + [] == val;
      } else {
        FillChars(Value(table, ts[0]), val);
      }
    }
  }

  lemma {:induction false} FillOnes(items: seq<Item>, c: char)
    ensures |Fill(items, [c])| == |items|
    ensures forall i :: 0 <= i < |items| ==> Fill(items, [c])[i] == if items[i].Hole? then c else items[i].c
  {
    if items != [] {
      FillOnes(items[1..], c);
    }
  }

  ghost predicate FilledAlike(a: seq<Item>, b: seq<Item>) {
    forall val :: Fill(a, val) == Fill(b, val)
  }

  lemma FillingTells(a: seq<Item>, b: seq<Item>)
    ensures FilledAlike(a, b) <==> a == b
  {
    if FilledAlike(a, b) {
      assert Fill(a, ['x']) == Fill(b, ['x']) && Fill(a, ['y']) == Fill(b, ['y']);
      FillOnes(a, 'x');
      FillOnes(b, 'x');
      FillOnes(a, 'y');
      FillOnes(b, 'y');
      forall i | 0 <= i < |a|
        ensures a[i] == b[i]
      {
        assert Fill(a, ['x'])[i] == Fill(b, ['x'])[i] && Fill(a, ['y'])[i] == Fill(b, ['y'])[i];
      }
    }
  }

  function EvalWith(table: Table, name: string, val: string, s: string): string {
    Eval(table[name := val], s)
  }

  /** The two templates agree for every value of this variable. */
  ghost predicate AgreeForAllValues(table: Table, name: string, s: string, s': string) {
    forall val :: EvalWith(table, name, val, s) == EvalWith(table, name, val, s')
  }

  /** Two templates agree for every value of one variable exactly if they have the same shape. */
  lemma AgreeForAllValuesIff(table: Table, name: string, s: string, s': string)
    ensures AgreeForAllValues(table, name, s, s') <==> Shape(table, name, Tokens(s)) == Shape(table, name, Tokens(s'))
  {
    forall val
      ensures Fill(Shape(table, name, Tokens(s)), val) == EvalWith(table, name, val, s)
      ensures Fill(Shape(table, name, Tokens(s')), val) == EvalWith(table, name, val, s')
    {
      FillShape(table, name, val, Tokens(s));
      FillShape(table, name, val, Tokens(s'));
    }
    FillingTells(Shape(table, name, Tokens(s)), Shape(table, name, Tokens(s')));
  }
}
