/** What the verdict of the line comparator says about the texts. */
module CompareTheory {
  import opened Compare
  import opened Lines
  import opened Seqs

  /** The verdict on intact inputs read through buffers of n bytes. */
  predicate Same(expected: Text, actual: Text, n: nat, ignoreNewline: bool)
    requires n > 0
  {
    SameLines(KeptLines(expected, n), KeptLines(actual, n), ignoreNewline)
  }

  // ----- line ends matter

  /** The early exit loses nothing: joined lines are equal only when the lines are. */
  lemma StrictComparesLines(expected: Text, actual: Text, n: nat)
    requires n > 0
    ensures Same(expected, actual, n, false) <==> KeptLines(expected, n) == KeptLines(actual, n)
  {
    KeptLfFree(expected, n);
    KeptLfFree(actual, n);
    if Same(expected, actual, n, false) {
      JoinInjective(KeptLines(expected, n), KeptLines(actual, n));
    }
  }

  lemma {:induction false} PlainLfFree(t: Text)
    ensures LfFree(PlainLines(t))
    decreases |t|
  {
    if LF in t {
      PlainLfFree(Tail(t));
    }
  }

  // ----- the carriage returns that buffers drop

  /** Where in the plain line, which starts at position at, buffers of n bytes drop a CR that no LF follows. */
  function Strays(line: Text, n: nat, at: nat): (positions: seq<nat>)
    requires n > 0
    ensures positions != [] ==> positions[0] >= at
    decreases |line|
  {
    if |line| <= n then
      if line != [] && line[|line| - 1] == CR then [at + |line| - 1] else []
    else if line[n - 1] == CR && line[n] != LF then [at + n - 1] + Strays(line[n..], n, at + n)
    else Strays(line[n..], n, at + n)
  }

  /** The same for every line of a text. */
  function StraysIn(t: Text, n: nat): (strays: seq<seq<nat>>)
    requires n > 0
    decreases |t|
  {
    if LF in t then [Strays(Head(t), n, 0)] + StraysIn(Tail(t), n) else [Strays(t, n, 0)]
  }

  /** Puts a CR at each of these positions of a line that starts at position at. */
  function Weave(kept: Text, positions: seq<nat>, at: nat): Text
    decreases |positions|
  {
    if positions == [] || !(at <= positions[0] <= at + |kept|) then kept
    else
      var k := positions[0] - at;
      kept[..k] + [CR] + Weave(kept[k..], positions[1..], positions[0] + 1)
  }

  lemma WeaveShift(pre: Text, kept: Text, positions: seq<nat>, at: nat)
    requires positions != [] ==> positions[0] >= at + |pre|
    ensures Weave(pre + kept, positions, at) == pre + Weave(kept, positions, at + |pre|)
  {
    if positions != [] && positions[0] <= at + |pre| + |kept| {
      var k := positions[0] - at - |pre|;
      TakeDropAppend(pre, kept, k);
      ConcatAssociative(pre, kept[..k], [CR]);
      ConcatAssociative(pre, kept[..k] + [CR], Weave(kept[k..], positions[1..], positions[0] + 1));
    }
  }

  lemma WeaveStray(pre: Text, kept: Text, positions: seq<nat>, at: nat)
    ensures Weave(pre + kept, [at + |pre|] + positions, at) == pre + [CR] + Weave(kept, positions, at + |pre| + 1)
  {
    DropAppend(pre, kept);
    DropAppend([at + |pre|], positions);
  }

  /** What is kept of a line, what is dropped from it, and the plain line. */
  ghost predicate Reading(line: Text, n: nat, at: nat, kept: Text, strays: seq<nat>, plain: Text)
    requires n > 0
  {
    kept == Chunks(line, n) && strays == Strays(line, n, at) && plain == Plain(line)
  }

  /** With the dropped CRs put back, what is kept of a line is the plain line. */
  lemma {:induction false} WeaveLine(line: Text, n: nat, at: nat, kept: Text, strays: seq<nat>, plain: Text)
    requires n > 0 && Reading(line, n, at, kept, strays, plain)
    requires forall i :: 0 <= i < |line| - 1 ==> line[i] != LF
    ensures Weave(kept, strays, at) == plain
    decreases |line|
  {
    if |line| <= n {
      WeaveLast(line, n, at, kept, strays, plain);
    } else if line[n] == LF {
      WeaveBeforeLf(line, n, at, kept, strays, plain);
    } else {
      var later, laterKept, laterStrays, laterPlain := FirstBuffer(line, n, at, kept, strays, plain);
      WeaveLine(later, n, at + n, laterKept, laterStrays, laterPlain);
      Woven(line[..n], n, at, kept, strays, plain, laterKept, laterStrays, laterPlain);
    }
  }

  /** A buffer full of text goes before the later readings. */
  ghost predicate Preceded(pre: Text, n: nat, at: nat, kept: Text, strays: seq<nat>, plain: Text,
                           laterKept: Text, laterStrays: seq<nat>, laterPlain: Text) {
    && |pre| == n > 0 && LF !in pre
    && kept == Filter(pre) + laterKept && plain == pre + laterPlain
    && strays == (if EndsCr(pre) then [at + n - 1] + laterStrays else laterStrays)
    && (laterStrays != [] ==> laterStrays[0] >= at + n)
  }

  /** What the first buffer of a line adds to the three readings. */
  lemma FirstBuffer(line: Text, n: nat, at: nat, kept: Text, strays: seq<nat>, plain: Text)
    returns (later: Text, laterKept: Text, laterStrays: seq<nat>, laterPlain: Text)
    requires 0 < n < |line| && Reading(line, n, at, kept, strays, plain) && line[n] != LF
    requires forall i :: 0 <= i < |line| - 1 ==> line[i] != LF
    ensures |later| < |line| && forall i :: 0 <= i < |later| - 1 ==> later[i] != LF
    ensures Reading(later, n, at + n, laterKept, laterStrays, laterPlain)
    ensures Preceded(line[..n], n, at, kept, strays, plain, laterKept, laterStrays, laterPlain)
  {
    later := line[n..];
    laterKept, laterStrays, laterPlain := Chunks(later, n), Strays(later, n, at + n), Plain(later);
    TakeDrop(line, n);
    FirstChunk(line[..n], later, n);
    PlainConcat(line[..n], later);
    FirstStrays(line[..n], later, n, at);
  }

  lemma WeaveBeforeLf(line: Text, n: nat, at: nat, kept: Text, strays: seq<nat>, plain: Text)
    requires 0 < n && |line| == n + 1 && line[n] == LF && LF !in line[..n]
    requires Reading(line, n, at, kept, strays, plain)
    ensures Weave(kept, strays, at) == plain
  {
    ChunksBeforeLf(line, n);
    assert line[n..] == [LF];
    assert Strays([LF], n, at + n) == [];
  }

  /** The first buffer put back in front of the others. */
  lemma Woven(pre: Text, n: nat, at: nat, kept: Text, strays: seq<nat>, plain: Text,
              laterKept: Text, laterStrays: seq<nat>, laterPlain: Text)
    requires Preceded(pre, n, at, kept, strays, plain, laterKept, laterStrays, laterPlain)
    requires Weave(laterKept, laterStrays, at + n) == laterPlain
    ensures Weave(kept, strays, at) == plain
  {
    if EndsCr(pre) {
      CrAtEnd(pre);
      WovenStray(pre[..n - 1], laterKept, laterStrays, at, laterPlain);
    } else {
      TextFilter(pre);
      WovenText(pre, laterKept, laterStrays, at, laterPlain);
    }
  }

  lemma WovenStray(pre: Text, kept: Text, positions: seq<nat>, at: nat, plain: Text)
    requires Weave(kept, positions, at + |pre| + 1) == plain
    ensures Weave(pre + kept, [at + |pre|] + positions, at) == pre + [CR] + plain
  {
    WeaveStray(pre, kept, positions, at);
  }

  lemma WovenText(pre: Text, kept: Text, positions: seq<nat>, at: nat, plain: Text)
    requires positions != [] ==> positions[0] >= at + |pre|
    requires Weave(kept, positions, at + |pre|) == plain
    ensures Weave(pre + kept, positions, at) == pre + plain
  {
    WeaveShift(pre, kept, positions, at);
  }

  lemma CrAtEnd(pre: Text)
    requires EndsCr(pre) && LF !in pre
    ensures pre == pre[..|pre| - 1] + [CR] && Filter(pre) == pre[..|pre| - 1]
  {
  }

  lemma FirstStrays(pre: Text, rest: Text, n: nat, at: nat)
    requires |pre| == n > 0 && rest != [] && rest[0] != LF
    ensures Strays(pre + rest, n, at)
         == (if pre[n - 1] == CR then [at + n - 1] else []) + Strays(rest, n, at + n)
  {
    DropAppend(pre, rest);
    assert [] + Strays(rest, n, at + n) == Strays(rest, n, at + n);
  }

  lemma WeaveLast(line: Text, n: nat, at: nat, kept: Text, strays: seq<nat>, plain: Text)
    requires n > 0 && |line| <= n && Reading(line, n, at, kept, strays, plain)
    ensures Weave(kept, strays, at) == plain
  {
    if EndsCr(line) {
      var pre := line[..|line| - 1];
      assert pre + [] == pre && [at + |pre|] + [] == [at + |pre|];
      WeaveStray(pre, [], [], at);
      assert line == pre + [CR] == pre + [CR] + [];
    }
  }

  /** The three readings of a text, line by line. */
  lemma FirstLine(t: Text, n: nat)
    requires n > 0
    ensures KeptLines(t, n)[0] == Chunks(Head(t), n) && PlainLines(t)[0] == Plain(Head(t))
    ensures StraysIn(t, n) != [] && StraysIn(t, n)[0] == Strays(Head(t), n, 0)
    ensures LF in t <==> |PlainLines(t)| > 1
    ensures LF in t <==> |KeptLines(t, n)| > 1
    ensures LF in t ==> KeptLines(t, n)[1..] == KeptLines(Tail(t), n) && PlainLines(t)[1..] == PlainLines(Tail(t))
    ensures LF in t ==> StraysIn(t, n)[1..] == StraysIn(Tail(t), n)
    ensures LF !in t ==> Head(t) == t && PlainLines(t) == [t]
    ensures LF !in t ==> KeptLines(t, n) == [Chunks(t, n)] && StraysIn(t, n) == [Strays(t, n, 0)]
  {
    if LF !in t {
      TakeAll(t);
    }
  }

  /** Lines kept and CRs dropped together determine the plain lines. */
  lemma {:induction false} KeptAndStraysTell(x: Text, y: Text, n: nat)
    requires n > 0 && KeptLines(x, n) == KeptLines(y, n) && StraysIn(x, n) == StraysIn(y, n)
    ensures PlainLines(x) == PlainLines(y)
    decreases |x|
  {
    FirstLine(x, n);
    FirstLine(y, n);
    WeaveLine(Head(x), n, 0, KeptLines(x, n)[0], StraysIn(x, n)[0], PlainLines(x)[0]);
    WeaveLine(Head(y), n, 0, KeptLines(y, n)[0], StraysIn(y, n)[0], PlainLines(y)[0]);
    if LF in x {
      KeptAndStraysTell(Tail(x), Tail(y), n);
      HeadFirst(PlainLines(x));
      HeadFirst(PlainLines(y));
    }
  }

  // ----- equal plain lines

  /** A terminated line is its plain line with one of the two line endings. */
  lemma PlainEnding(line: Text) returns (ending: Text)
    requires line != [] && line[|line| - 1] == LF
    requires forall i :: 0 <= i < |line| - 1 ==> line[i] != LF
    ensures line == Plain(line) + ending && LF !in Plain(line)
    ensures ending == [CR, LF] || (ending == [LF] && !EndsCr(Plain(line)))
  {
    var body := line[..|line| - 1];
    assert line == body + [LF] && LF !in body;
    if EndsCr(body) {
      ending := [CR, LF];
      assert body == Plain(line) + [CR];
    } else {
      ending := [LF];
    }
  }

  predicate EndsCr(t: Text) {
    t != [] && t[|t| - 1] == CR
  }

  lemma {:induction false} StraysWithEnding(line: Text, n: nat, at: nat, ending: Text)
    requires n > 0 && LF !in line && !EndsCr(line) && (ending == [LF] || ending == [CR, LF])
    ensures Strays(line + ending, n, at) == Strays(line, n, at)
    decreases |line|
  {
    if |line| > n {
      assert (line + ending)[..n] == line[..n] && (line + ending)[n..] == line[n..] + ending;
      assert (line + ending)[n] == line[n] && (line + ending)[n - 1] == line[n - 1];
      StraysWithEnding(line[n..], n, at + n, ending);
    } else {
      EndingHasNoStrays(line, n, at, ending);
    }
  }

  lemma EndingHasNoStrays(line: Text, n: nat, at: nat, ending: Text)
    requires n > 0 && |line| <= n && LF !in line && !EndsCr(line) && (ending == [LF] || ending == [CR, LF])
    ensures Strays(line + ending, n, at) == []
  {
    var longer := line + ending;
    if |longer| > n {
      if |line| == n {
        assert longer[n - 1] == line[n - 1] && longer[n..] == ending;
        OnlyEnding(ending, n, at + n);
      } else {
        assert longer[n..] == [LF] && longer[n - 1] == CR && longer[n] == LF;
        OnlyEnding([LF], n, at + n);
      }
    }
  }

  lemma OnlyEnding(ending: Text, n: nat, at: nat)
    requires n > 0 && (ending == [LF] || ending == [CR, LF])
    ensures Strays(ending, n, at) == []
  {
    if |ending| > n {
      assert ending[n..] == [LF];
      assert Strays([LF], n, at + n) == [];
    }
  }

  /** Two terminated lines with the same plain line keep and drop the same, whichever line endings they have. */
  lemma SamePlainLine(x: Text, y: Text, n: nat)
    requires n > 0 && x != [] && y != [] && x[|x| - 1] == LF && y[|y| - 1] == LF
    requires forall i :: 0 <= i < |x| - 1 ==> x[i] != LF
    requires forall i :: 0 <= i < |y| - 1 ==> y[i] != LF
    requires Plain(x) == Plain(y)
    ensures Chunks(x, n) == Chunks(y, n) && Strays(x, n, 0) == Strays(y, n, 0)
  {
    var line := Plain(x);
    var endX := PlainEnding(x);
    var endY := PlainEnding(y);
    if !EndsCr(line) {
      ChunksWithEnding(line, n, endX);
      ChunksWithEnding(line, n, endY);
      StraysWithEnding(line, n, 0, endX);
      StraysWithEnding(line, n, 0, endY);
    }
  }

  lemma {:induction false} SamePlainLines(x: Text, y: Text, n: nat)
    requires n > 0 && PlainLines(x) == PlainLines(y)
    ensures KeptLines(x, n) == KeptLines(y, n) && StraysIn(x, n) == StraysIn(y, n)
    decreases |x|
  {
    FirstLine(x, n);
    FirstLine(y, n);
    if LF in x {
      SamePlainLine(Head(x), Head(y), n);
      SamePlainLines(Tail(x), Tail(y), n);
      HeadFirst(KeptLines(x, n));
      HeadFirst(KeptLines(y, n));
      HeadFirst(StraysIn(x, n));
      HeadFirst(StraysIn(y, n));
    }
  }

  lemma CrlfToLfTellsLines(x: Text, y: Text)
    ensures CrlfToLf(x) == CrlfToLf(y) <==> PlainLines(x) == PlainLines(y)
  {
    PlainLinesJoined(x);
    PlainLinesJoined(y);
    PlainLfFree(x);
    PlainLfFree(y);
    if CrlfToLf(x) == CrlfToLf(y) {
      JoinInjective(PlainLines(x), PlainLines(y));
    }
  }

  /** A right answer is never refused, whatever the texts, the buffer size and the mode. */
  lemma RightAnswersPass(expected: Text, actual: Text, n: nat, ignoreNewline: bool)
    requires n > 0 && CrlfToLf(expected) == CrlfToLf(actual)
    ensures Same(expected, actual, n, ignoreNewline)
  {
    CrlfToLfTellsLines(expected, actual);
    SamePlainLines(expected, actual, n);
  }

  /**
   * For all texts and buffer sizes: they agree once every CRLF reads as LF exactly if they are accepted strictly and
   * the buffers drop the same stray CRs from both.
   */
  lemma StrictIsEqualityUpToCrlf(expected: Text, actual: Text, n: nat)
    requires n > 0
    ensures CrlfToLf(expected) == CrlfToLf(actual)
            <==> Same(expected, actual, n, false) && StraysIn(expected, n) == StraysIn(actual, n)
  {
    StrictComparesLines(expected, actual, n);
    CrlfToLfTellsLines(expected, actual);
    if PlainLines(expected) == PlainLines(actual) {
      SamePlainLines(expected, actual, n);
    }
    if KeptLines(expected, n) == KeptLines(actual, n) && StraysIn(expected, n) == StraysIn(actual, n) {
      KeptAndStraysTell(expected, actual, n);
    }
  }

  /** Without a stray CR at a buffer end the verdict is equality up to CRLF. */
  lemma StrictWithoutStrays(expected: Text, actual: Text, n: nat)
    requires n > 0 && !CutsStrayIn(expected, n) && !CutsStrayIn(actual, n)
    ensures Same(expected, actual, n, false) <==> CrlfToLf(expected) == CrlfToLf(actual)
  {
    StrictComparesLines(expected, actual, n);
    KeptArePlainIff(expected, n);
    KeptArePlainIff(actual, n);
    CrlfToLfTellsLines(expected, actual);
  }

  /** For texts whose every CR precedes an LF this holds whatever the buffer size. */
  lemma StrictForCleanTexts(expected: Text, actual: Text, n: nat)
    requires n > 0 && CrBeforeLf(expected) && CrBeforeLf(actual)
    ensures Same(expected, actual, n, false) <==> CrlfToLf(expected) == CrlfToLf(actual)
  {
    CrBeforeLfNeverCutIn(expected, n);
    CrBeforeLfNeverCutIn(actual, n);
    StrictWithoutStrays(expected, actual, n);
  }

  // ----- the buffer size

  /** The lines hashed, one per call, are the same for every buffer size when every CR precedes an LF. */
  lemma BufferSizeInvisible(t: Text, n: nat, n': nat)
    requires n > 0 && n' > 0 && CrBeforeLf(t)
    ensures KeptLines(t, n) == KeptLines(t, n') == PlainLines(t)
  {
    CrBeforeLfNeverCutIn(t, n);
    CrBeforeLfNeverCutIn(t, n');
    KeptArePlainIff(t, n);
    KeptArePlainIff(t, n');
  }

  /** Every CR ends the text or is immediately followed by LF. */
  ghost predicate CrEndsLine(t: Text) {
    forall i :: 0 <= i < |t| && t[i] == CR ==> i + 1 == |t| || t[i + 1] == LF
  }

  /** What is kept of every line when no line needs more than one buffer. */
  function FilteredLines(t: Text): (lines: seq<Text>)
    ensures lines != []
    decreases |t|
  {
    if LF in t then [Filter(Head(t))] + FilteredLines(Tail(t)) else [Filter(t)]
  }

  lemma {:induction false} LargeBuffer(t: Text, n: nat)
    requires n > 0 && |t| <= n
    ensures KeptLines(t, n) == FilteredLines(t)
    decreases |t|
  {
    if LF in t {
      LargeBuffer(Tail(t), n);
    }
  }

  lemma FilterAcross(pre: Text, rest: Text)
    requires pre != [] && rest != [] && LF !in pre
    requires pre[|pre| - 1] == CR ==> rest == [LF]
    ensures Filter(pre + rest) == Filter(pre) + Filter(rest)
  {
    var line := pre + rest;
    assert line[..|line| - 1] == pre + rest[..|rest| - 1];
    if rest[|rest| - 1] == LF && |rest| > 1 {
      assert line[..|line| - 1][..|line| - 2] == pre + rest[..|rest| - 1][..|rest| - 2];
    }
    assert pre + [] == pre;
  }

  lemma {:induction false} ChunksOfCleanLine(line: Text, n: nat)
    requires n > 0 && CrEndsLine(line)
    requires forall i :: 0 <= i < |line| - 1 ==> line[i] != LF
    ensures Chunks(line, n) == Filter(line)
    decreases |line|
  {
    if |line| > n {
      ChunksOfCleanLine(line[n..], n);
      TakeDrop(line, n);
      assert line[n - 1] == CR ==> line[n] == LF && n == |line| - 1;
      FilterAcross(line[..n], line[n..]);
    }
  }

  lemma CleanParts(t: Text)
    requires LF in t
    ensures CrEndsLine(t) <==> CrEndsLine(Head(t)) && CrEndsLine(Tail(t))
  {
    var k := LineLen(t);
    assert forall i :: 0 <= i < k ==> Head(t)[i] == t[i];
    assert forall i :: k <= i < |t| ==> Tail(t)[i - k] == t[i];
    if CrEndsLine(Head(t)) && CrEndsLine(Tail(t)) {
      forall i | 0 <= i < |t| && t[i] == CR
        ensures i + 1 == |t| || t[i + 1] == LF
      {
        if i < k {
          assert Head(t)[i] == CR;
        } else {
          assert Tail(t)[i - k] == CR;
        }
      }
    }
  }

  lemma {:induction false} AnyBuffer(t: Text, n: nat)
    requires n > 0 && CrEndsLine(t)
    ensures KeptLines(t, n) == FilteredLines(t)
    decreases |t|
  {
    if LF in t {
      CleanParts(t);
      ChunksOfCleanLine(Head(t), n);
      AnyBuffer(Tail(t), n);
    } else {
      ChunksOfCleanLine(t, n);
    }
  }

  /** Buffers of one byte drop every CR. */
  lemma {:induction false} TinyBuffer(line: Text)
    ensures CR !in Chunks(line, 1)
    decreases |line|
  {
    if |line| > 1 {
      TinyBuffer(line[1..]);
    }
  }

  lemma CrFreeFilter(line: Text)
    requires forall i :: 0 <= i < |line| - 1 ==> line[i] != LF
    requires CR !in Filter(line)
    ensures CrEndsLine(line)
  {
    var kept := Filter(line);
    assert forall i :: 0 <= i < |kept| ==> kept[i] == line[i];
    assert forall i :: 0 <= i < |kept| ==> line[i] != CR;
  }

  lemma {:induction false} SizesThatAgree(t: Text)
    requires KeptLines(t, 1) == FilteredLines(t)
    ensures CrEndsLine(t)
    decreases |t|
  {
    if LF in t {
      TinyBuffer(Head(t));
      assert KeptLines(t, 1)[0] == FilteredLines(t)[0];
      assert KeptLines(t, 1)[1..] == FilteredLines(t)[1..];
      CrFreeFilter(Head(t));
      SizesThatAgree(Tail(t));
      CleanParts(t);
    } else {
      TinyBuffer(t);
      CrFreeFilter(t);
    }
  }

  ghost predicate SameAtAllSizes(t: Text) {
    forall n: nat, n': nat :: n > 0 && n' > 0 ==> KeptLines(t, n) == KeptLines(t, n')
  }

  /** The lines hashed are the same for every buffer size exactly if every CR ends the text or precedes an LF. */
  lemma BufferSizeInvisibleIff(t: Text)
    ensures SameAtAllSizes(t) <==> CrEndsLine(t)
  {
    if CrEndsLine(t) {
      forall n: nat, n': nat | n > 0 && n' > 0
        ensures KeptLines(t, n) == KeptLines(t, n')
      {
        AnyBuffer(t, n);
        AnyBuffer(t, n');
      }
    }
    if SameAtAllSizes(t) {
      LargeBuffer(t, |t| + 1);
      assert KeptLines(t, 1) == KeptLines(t, |t| + 1);
      SizesThatAgree(t);
    }
  }

  /** A final CR is dropped at every buffer size, though no LF follows it. */
  lemma FinalCrIsDropped(line: Text, n: nat)
    requires n > 0 && LF !in line && CR !in line
    ensures Same(line + [CR], line, n, false) && CrlfToLf(line + [CR]) != CrlfToLf(line)
  {
    AnyBuffer(line + [CR], n);
    AnyBuffer(line, n);
    FilterOfCr(line);
    StrictComparesLines(line + [CR], line, n);
    CrlfToLfWithoutLf(line + [CR]);
    CrlfToLfWithoutLf(line);
    assert |line + [CR]| != |line|;
  }

  /** The byte 97 with and without a final CR. */
  lemma FinalCrExample(n: nat)
    requires n > 0
    ensures Same([97] + [CR], [97], n, false) && CrlfToLf([97] + [CR]) != CrlfToLf([97])
  {
    FinalCrIsDropped([97], n);
  }

  lemma PlainTextKept(t: Text, n: nat)
    requires n > 0 && LF !in t && CR !in t
    ensures KeptLines(t, n) == [t]
  {
    AnyBuffer(t, n);
  }

  /** A CR inside a line is dropped when it fills a buffer. */
  lemma StrayCrDropped(pre: Text, rest: Text)
    requires LF !in pre && CR !in pre && rest != [] && LF !in rest && CR !in rest
    ensures KeptLines(pre + [CR] + rest, |pre| + 1) == [pre + rest] == KeptLines(pre + rest, |pre| + 1)
  {
    var x, k := pre + [CR] + rest, |pre| + 1;
    DropAppend(pre + [CR], rest);
    FilterOfCr(pre);
    PlainTextKept(rest, k);
    PlainTextKept(pre + rest, k);
    assert LF !in x;
  }

  /** A buffer for the whole line keeps it. */
  lemma StrayCrKept(pre: Text, rest: Text, n: nat)
    requires LF !in pre && rest != [] && LF !in rest && CR !in rest && n > |pre| + 1 + |rest|
    ensures KeptLines(pre + [CR] + rest, n) == [pre + [CR] + rest]
  {
    var x := pre + [CR] + rest;
    assert LF !in x && x[|x| - 1] == rest[|rest| - 1];
  }

  /** So the verdict depends on where the line stands in the buffers. */
  lemma StrayCrDependsOnBuffer(pre: Text, rest: Text, n: nat)
    requires LF !in pre && CR !in pre && rest != [] && LF !in rest && CR !in rest && n > |pre| + 1 + |rest|
    ensures Same(pre + [CR] + rest, pre + rest, |pre| + 1, false)
    ensures !Same(pre + [CR] + rest, pre + rest, n, false)
    ensures CrlfToLf(pre + [CR] + rest) != CrlfToLf(pre + rest)
  {
    var x, y := pre + [CR] + rest, pre + rest;
    StrayCrDropped(pre, rest);
    StrayCrKept(pre, rest, n);
    PlainTextKept(y, n);
    StrictComparesLines(x, y, |pre| + 1);
    StrictComparesLines(x, y, n);
    CrlfToLfWithoutLf(x);
    CrlfToLfWithoutLf(y);
    assert |x| != |y|;
  }

  lemma FilterOfCr(pre: Text)
    requires LF !in pre
    ensures Filter(pre + [CR]) == pre
  {
    assert (pre + [CR])[..|pre|] == pre;
  }

  /** With the standard buffer: 4095 letters, a CR and another letter pass for the letters alone. */
  lemma StrayCrIsLostAt4096(letters: Text)
    requires |letters| == 4095 && forall i :: 0 <= i < 4095 ==> letters[i] == 97
    ensures Same(letters + [CR] + [98], letters + [98], 4096, false)
    ensures CrlfToLf(letters + [CR] + [98]) != CrlfToLf(letters + [98])
  {
    StrayCrDependsOnBuffer(letters, [98], 5000);
  }

  // ----- line ends ignored

  /** Once line ends are ignored: the common terminated lines agree, and the remainders agree without line ends. */
  lemma LenientComparesRemainders(expected: Text, actual: Text, n: nat)
    requires n > 0
    ensures var x, y := KeptLines(expected, n), KeptLines(actual, n);
            var m := CommonLines(x, y);
            Same(expected, actual, n, true) <==> x[..m] == y[..m] && Flat(x[m..], true) == Flat(y[m..], true)
  {
    SameLinesByRemainders(KeptLines(expected, n), KeptLines(actual, n), true);
  }

  lemma SameLinesByRemainders(x: seq<Text>, y: seq<Text>, ignoreNewline: bool)
    requires x != [] && y != []
    ensures var m := CommonLines(x, y);
            SameLines(x, y, ignoreNewline)
            <==> x[..m] == y[..m] && Flat(x[m..], ignoreNewline) == Flat(y[m..], ignoreNewline)
  {
    var m := CommonLines(x, y);
    TakeDrop(x, m);
    TakeDrop(y, m);
    FlatSplit(x[..m], x[m..], ignoreNewline);
    FlatSplit(y[..m], y[m..], ignoreNewline);
    if x[..m] == y[..m] {
      CancelPrefix(FlatPrefix(x[..m], ignoreNewline), Flat(x[m..], ignoreNewline), Flat(y[m..], ignoreNewline));
    }
  }

  lemma CancelPrefix(p: Text, a: Text, b: Text)
    ensures p + a == p + b <==> a == b
  {
    DropAppend(p, a);
    DropAppend(p, b);
  }

  lemma VerdictIsSymmetric(expected: Text, actual: Text, n: nat, ignoreNewline: bool)
    requires n > 0
    ensures Same(expected, actual, n, ignoreNewline) <==> Same(actual, expected, n, ignoreNewline)
    ensures Same(expected, expected, n, ignoreNewline)
  {
    assert CommonLines(KeptLines(expected, n), KeptLines(actual, n))
        == CommonLines(KeptLines(actual, n), KeptLines(expected, n));
  }

  ghost predicate MayFollow(t: Text, ending: Text) {
    ending == [LF] || (ending == [CR, LF] && (t == [] || t[|t| - 1] != CR))
  }

  lemma FilterEnding(line: Text, ending: Text)
    requires LF !in line && MayFollow(line, ending)
    ensures Filter(line + ending) == Filter(line)
    ensures ending == [CR, LF] ==> Filter(line + [CR]) == line == Filter(line)
  {
    var longer := line + ending;
    if ending == [LF] {
      assert longer[..|longer| - 1] == line;
    } else {
      assert longer[..|longer| - 1] == line + [CR];
      assert (line + [CR])[..|line|] == line;
    }
  }

  lemma {:induction false} ChunksWithEnding(line: Text, n: nat, ending: Text)
    requires n > 0 && LF !in line && MayFollow(line, ending)
    ensures Chunks(line + ending, n) == Chunks(line, n)
    decreases |line|
  {
    if |line| > n {
      assert (line + ending)[..n] == line[..n] && (line + ending)[n..] == line[n..] + ending;
      ChunksWithEnding(line[n..], n, ending);
    } else {
      LastChunkWithEnding(line, n, ending);
    }
  }

  lemma LastChunkWithEnding(line: Text, n: nat, ending: Text)
    requires n > 0 && LF !in line && MayFollow(line, ending)
    requires |line| <= n
    ensures Chunks(line + ending, n) == Filter(line)
  {
    var longer := line + ending;
    FilterEnding(line, ending);
    if |line| == n {
      assert longer[..n] == line && longer[n..] == ending;
      EndingLeavesNothing(ending, n);
    } else if |longer| > n {
      assert longer[..n] == line + [CR] && longer[n..] == [LF];
    }
  }

  lemma EndingLeavesNothing(ending: Text, n: nat)
    requires n > 0 && (ending == [LF] || ending == [CR, LF])
    ensures Chunks(ending, n) == []
  {
  }

  lemma {:induction false} KeptWithEnding(t: Text, n: nat, ending: Text)
    requires n > 0 && MayFollow(t, ending)
    ensures KeptLines(t + ending, n) == KeptLines(t, n) + [[]]
    decreases |t|
  {
    if LF in t {
      var body, tail := t[..LineLen(t) - 1], Tail(t);
      assert t == body + [LF] + tail;
      KeptWithEnding(tail, n, ending);
      KeptStep(body, tail, n, ending);
    } else {
      KeptOfTerminated(t, n, ending);
    }
  }

  lemma KeptStep(body: Text, tail: Text, n: nat, ending: Text)
    requires n > 0 && LF !in body
    requires KeptLines(tail + ending, n) == KeptLines(tail, n) + [[]]
    ensures KeptLines(body + [LF] + tail + ending, n) == KeptLines(body + [LF] + tail, n) + [[]]
  {
    KeptFirst(body, tail, n);
    KeptFirst(body, tail + ending, n);
    ConcatAssociative(body + [LF], tail, ending);
    ConcatAssociative([Chunks(body + [LF], n)], KeptLines(tail, n), [[]]);
  }

  lemma KeptOfTerminated(line: Text, n: nat, ending: Text)
    requires n > 0 && LF !in line && MayFollow(line, ending)
    ensures KeptLines(line + ending, n) == [Chunks(line, n), []]
  {
    var body := line + ending[..|ending| - 1];
    EndingSplits(line, ending);
    KeptFirst(body, [], n);
    ChunksWithEnding(line, n, ending);
  }

  lemma EndingSplits(line: Text, ending: Text)
    requires ending == [LF] || ending == [CR, LF]
    ensures var body := line + ending[..|ending| - 1];
            line + ending == body + [LF] && body + [LF] + [] == body + [LF]
  {
  }

  lemma KeptFirst(body: Text, rest: Text, n: nat)
    requires n > 0 && LF !in body
    ensures KeptLines(body + [LF] + rest, n) == [Chunks(body + [LF], n)] + KeptLines(rest, n)
  {
    HeadOfTerminated(body, rest);
    assert (body + [LF] + rest)[|body|] == LF;
  }

  /** A text always matches itself followed by one line ending when line ends are ignored, and never otherwise. */
  lemma OneMoreLineEnding(t: Text, n: nat, ending: Text)
    requires n > 0
    requires MayFollow(t, ending)
    ensures Same(t, t + ending, n, true) && !Same(t, t + ending, n, false)
  {
    KeptWithEnding(t, n, ending);
    StrictComparesLines(t, t + ending, n);
    EmptyLastLineIgnored(KeptLines(t, n));
  }

  lemma EmptyLastLineIgnored(lines: seq<Text>)
    requires lines != []
    ensures SameLines(lines, lines + [[]], true)
  {
    var m := |lines| - 1;
    assert (lines + [[]])[..m] == lines[..m];
    FlatSplit(lines, [[]], true);
    FlatSplit(lines[..m], [lines[m]], true);
    assert lines == lines[..m] + [lines[m]];
  }

  /** All line ends are ignored, not only the last, and the relation is not transitive. */
  lemma LenientMergesLines()
    ensures var merged, ends, split := [97, 98], [LF, 97, 98], [97, LF, 98];
            && Same(split, merged, 4096, true) && Same(merged, ends, 4096, true)
            && !Same(split, ends, 4096, true)
  {
    var merged: Text, ends: Text, split: Text := [97, 98], [LF, 97, 98], [97, LF, 98];
    assert KeptLines(merged, 4096) == [merged];
    assert split == [97] + [LF] + [98] && ends == [] + [LF] + merged;
    HeadOfTerminated([97], [98]);
    HeadOfTerminated([], merged);
    assert split[1] == LF && ends[0] == LF;
    assert KeptLines(split, 4096) == [[97], [98]];
    assert KeptLines(ends, 4096) == [[], merged];
    assert Flat([[97], [98]], true) == merged && Flat([[], merged], true) == merged && Flat([merged], true) == merged;
  }

  // ----- the documented meaning: the last line ending is ignored

  /** The documented relation: equal up to CRLF, or equal but for one more line ending at the end of one side. */
  predicate SameButLastEnding(expected: Text, actual: Text) {
    var x, y := CrlfToLf(expected), CrlfToLf(actual);
    x == y || x == y + [LF] || y == x + [LF]
  }

  function LineEnds(t: Text): nat {
    multiset(t)[LF]
  }

  predicate EndsLine(t: Text) {
    t != [] && t[|t| - 1] == LF
  }

  /** The two texts have equally many line ends, or one has one more and ends in it. */
  predicate OneEndingApart(x: Text, y: Text) {
    || LineEnds(x) == LineEnds(y)
    || (LineEnds(x) == LineEnds(y) + 1 && EndsLine(x))
    || (LineEnds(y) == LineEnds(x) + 1 && EndsLine(y))
  }

  lemma {:induction false} PlainLinesCount(t: Text)
    ensures |PlainLines(t)| == LineEnds(t) + 1
    decreases |t|
  {
    if LF in t {
      var k := LineLen(t);
      assert t == t[..k - 1] + [LF] + Tail(t);
      assert LineEnds(t) == multiset(t[..k - 1])[LF] + 1 + LineEnds(Tail(t));
      PlainLinesCount(Tail(t));
    }
  }

  lemma EndsLineTail(t: Text)
    requires LF in t
    ensures EndsLine(t) <==> Tail(t) == [] || EndsLine(Tail(t))
  {
    TakeDrop(t, LineLen(t));
  }

  predicate EndsEmpty(lines: seq<Text>) {
    |lines| > 1 && lines[|lines| - 1] == []
  }

  lemma ConsEndsEmpty(first: Text, later: seq<Text>)
    requires later != []
    ensures EndsEmpty([first] + later) <==> later == [[]] || EndsEmpty(later)
  {
    var lines := [first] + later;
    assert lines[|lines| - 1] == later[|later| - 1];
  }

  lemma {:induction false} PlainLinesEnd(t: Text)
    ensures EndsLine(t) <==> EndsEmpty(PlainLines(t))
    decreases |t|
  {
    if LF in t {
      PlainLinesEnd(Tail(t));
      EndsLineTail(t);
      ConsEndsEmpty(Plain(Head(t)), PlainLines(Tail(t)));
      SoleEmptyLine(Tail(t));
    }
  }

  lemma SoleEmptyLine(t: Text)
    ensures PlainLines(t) == [[]] <==> t == []
  {
    if LF in t {
      assert |PlainLines(t)| == 1 + |PlainLines(Tail(t))|;
    }
  }

  lemma JoinWithEmptyLast(lines: seq<Text>)
    requires lines != []
    ensures Flat(lines + [[]], false) == Flat(lines, false) + [LF]
  {
    var n := |lines| - 1;
    assert lines == lines[..n] + [lines[n]];
    FlatSplit(lines[..n], [lines[n]], false);
    FlatSplit(lines, [[]], false);
  }

  lemma SameButLastEndingLines(expected: Text, actual: Text)
    ensures var x, y := PlainLines(expected), PlainLines(actual);
            SameButLastEnding(expected, actual) <==> x == y || x == y + [[]] || y == x + [[]]
  {
    var x, y := PlainLines(expected), PlainLines(actual);
    PlainLfFree(expected);
    PlainLfFree(actual);
    PlainLinesJoined(expected);
    PlainLinesJoined(actual);
    JoinWithEmptyLast(x);
    JoinWithEmptyLast(y);
    if CrlfToLf(expected) == CrlfToLf(actual) {
      JoinInjective(x, y);
    }
    if CrlfToLf(expected) == CrlfToLf(actual) + [LF] {
      JoinInjective(x, y + [[]]);
    }
    if CrlfToLf(actual) == CrlfToLf(expected) + [LF] {
      JoinInjective(y, x + [[]]);
    }
  }

  /**
   * The lenient verdict accepts whatever the documentation accepts, and accepts no more exactly when the texts are one
   * ending apart.
   */
  lemma LenientMeetsDocumentationIff(expected: Text, actual: Text, n: nat)
    requires n > 0 && CrBeforeLf(expected) && CrBeforeLf(actual)
    ensures SameButLastEnding(expected, actual)
            <==> Same(expected, actual, n, true) && OneEndingApart(expected, actual)
  {
    BufferSizeInvisible(expected, n, n);
    BufferSizeInvisible(actual, n, n);
    SameButLastEndingLines(expected, actual);
    PlainLinesCount(expected);
    PlainLinesCount(actual);
    PlainLinesEnd(expected);
    PlainLinesEnd(actual);
    LenientComparesRemainders(expected, actual, n);
    LinesOneApart(PlainLines(expected), PlainLines(actual));
  }

  lemma LinesOneApart(x: seq<Text>, y: seq<Text>)
    requires x != [] && y != []
    ensures var m := CommonLines(x, y);
            var remaindersAgree := x[..m] == y[..m] && Flat(x[m..], true) == Flat(y[m..], true);
            && (x == y <==> |x| == |y| && remaindersAgree)
            && (x == y + [[]] <==> |x| == |y| + 1 && x[|x| - 1] == [] && remaindersAgree)
            && (y == x + [[]] <==> |y| == |x| + 1 && y[|y| - 1] == [] && remaindersAgree)
  {
    if |x| == |y| {
      var m := CommonLines(x, y);
      assert x == x[..m] + [x[m]] && y == y[..m] + [y[m]];
      assert x[m..] == [x[m]] && y[m..] == [y[m]];
    } else if |x| == |y| + 1 {
      OneMoreLine(x, y);
    } else if |y| == |x| + 1 {
      OneMoreLine(y, x);
    }
  }

  lemma OneMoreLine(x: seq<Text>, y: seq<Text>)
    requires y != [] && |x| == |y| + 1
    ensures var m := |y| - 1;
            x == y + [[]] <==> x[m + 1] == [] && x[..m] == y[..m] && Flat(x[m..], true) == Flat(y[m..], true)
  {
    var m := |y| - 1;
    assert x[m..] == [x[m]] + [x[m + 1]] && y[m..] == [y[m]];
    FlatSplit([x[m]], [x[m + 1]], true);
    assert Flat(x[m..], true) == x[m] + x[m + 1] && Flat(y[m..], true) == y[m];
    assert y == y[..m] + [y[m]] && x == x[..m] + [x[m]] + [x[m + 1]];
    assert x[m + 1] == [] ==> x[m] + x[m + 1] == x[m];
    if x == y + [[]] {
      assert x[m + 1] == (y + [[]])[m + 1] == [];
      assert x[m] == y[m] && x[..m] == y[..m];
    }
  }
}
