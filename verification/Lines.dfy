/** Texts as lines, and the two normal forms that the line comparator works with. */
module Lines {
  import opened Seqs

  newtype byte = x: int | 0 <= x < 256

  type Text = seq<byte>

  const LF: byte := 10
  const CR: byte := 13

  /** Drops a trailing LF and then a trailing CR. */
  function Filter(data: Text): Text {
    var body := if data != [] && data[|data| - 1] == LF then data[..|data| - 1] else data;
    if body != [] && body[|body| - 1] == CR then body[..|body| - 1] else body
  }

  /** The length of the first line, its LF included. */
  function LineLen(t: Text): (n: nat)
    ensures n <= |t|
    ensures LF !in t ==> n == |t|
    ensures LF in t ==> n > 0 && t[n - 1] == LF
    ensures LF !in t[..if LF in t then n - 1 else n]
  {
    if t == [] then 0
    else if t[0] == LF then 1
    else
      var n := 1 + LineLen(t[1..]);
      assert t == [t[0]] + t[1..];
      assert t[..n] == [t[0]] + t[1..][..n - 1];
      assert LF in t ==> t[..n - 1] == [t[0]] + t[1..][..n - 2];
      n
  }

  function Head(t: Text): Text {
    t[..LineLen(t)]
  }

  function Tail(t: Text): Text {
    t[LineLen(t)..]
  }

  lemma {:induction false} LineLenAppend(x: Text, y: Text)
    requires LF !in x
    ensures LineLen(x + y) == |x| + LineLen(y)
  {
    if x == [] {
      assert x + y == y;
    } else {
      assert (x + y)[1..] == x[1..] + y;
      LineLenAppend(x[1..], y);
    }
  }

  lemma HeadTailAppend(x: Text, y: Text)
    requires LF !in x
    ensures Head(x + y) == x + Head(y) && Tail(x + y) == Tail(y)
    ensures LF in x + y <==> LF in y
  {
    LineLenAppend(x, y);
    TakeDropAppend(x, y, LineLen(y));
  }

  lemma HeadOfTerminated(x: Text, y: Text)
    requires LF !in x
    ensures Head(x + [LF] + y) == x + [LF] && Tail(x + [LF] + y) == y
  {
    assert x + [LF] + y == x + ([LF] + y);
    LineLenAppend(x, [LF] + y);
  }

  /** What is kept of one line that is filtered buffer by buffer, n bytes at a time. */
  function Chunks(line: Text, n: nat): Text
    requires n > 0
    decreases |line|
  {
    if |line| <= n then Filter(line) else Filter(line[..n]) + Chunks(line[n..], n)
  }

  /** What is kept of every line of a text; the last entry is the unterminated rest. */
  function KeptLines(t: Text, n: nat): (lines: seq<Text>)
    requires n > 0
    ensures lines != []
    decreases |t|
  {
    if LF in t then [Chunks(Head(t), n)] + KeptLines(Tail(t), n) else [Chunks(t, n)]
  }

  /** The line without its line ending; a CR that no LF follows is text. */
  function Plain(line: Text): Text {
    if line != [] && line[|line| - 1] == LF then Filter(line) else line
  }

  function PlainLines(t: Text): (lines: seq<Text>)
    ensures lines != []
    decreases |t|
  {
    if LF in t then [Plain(Head(t))] + PlainLines(Tail(t)) else [t]
  }

  /** Lines one after another, each but the last followed by LF unless the line ends are ignored. */
  function Flat(lines: seq<Text>, ignoreNewline: bool): Text
  {
    if lines == [] then []
    else if |lines| == 1 then lines[0]
    else lines[0] + Terminator(ignoreNewline) + Flat(lines[1..], ignoreNewline)
  }

  function Terminator(ignoreNewline: bool): Text {
    if ignoreNewline then [] else [LF]
  }

  /** The first lines of a text, all of them terminated. */
  function FlatPrefix(lines: seq<Text>, ignoreNewline: bool): Text {
    if lines == [] then []
    else FlatPrefix(lines[..|lines| - 1], ignoreNewline) + lines[|lines| - 1] + Terminator(ignoreNewline)
  }

  lemma {:induction false} FlatSplit(first: seq<Text>, last: seq<Text>, ignoreNewline: bool)
    requires last != []
    ensures Flat(first + last, ignoreNewline) == FlatPrefix(first, ignoreNewline) + Flat(last, ignoreNewline)
    decreases |first|
  {
    if first == [] {
      assert first + last == last;
    } else {
      var n := |first| - 1;
      assert first + last == first[..n] + ([first[n]] + last);
      FlatSplit(first[..n], [first[n]] + last, ignoreNewline);
      assert ([first[n]] + last)[1..] == last;
    }
  }

  /** The text with every CRLF replaced by LF. */
  function CrlfToLf(t: Text): Text {
    if t == [] then []
    else if |t| >= 2 && t[0] == CR && t[1] == LF then [LF] + CrlfToLf(t[2..])
    else [t[0]] + CrlfToLf(t[1..])
  }

  /** Every CR is immediately followed by LF. */
  ghost predicate CrBeforeLf(t: Text) {
    forall i :: 0 <= i < |t| && t[i] == CR ==> i + 1 < |t| && t[i + 1] == LF
  }

  /** Some buffer of n bytes, or the text, ends within this line in a CR that no LF follows. */
  predicate CutsStray(line: Text, n: nat)
    requires n > 0
    decreases |line|
  {
    if |line| <= n then line != [] && line[|line| - 1] == CR
    else (line[n - 1] == CR && line[n] != LF) || CutsStray(line[n..], n)
  }

  predicate CutsStrayIn(t: Text, n: nat)
    requires n > 0
    decreases |t|
  {
    if LF in t then CutsStray(Head(t), n) || CutsStrayIn(Tail(t), n) else CutsStray(t, n)
  }

  // ----- what the buffer-wise filter keeps

  /** Buffers drop nothing but line endings exactly when no buffer ends in a stray CR. */
  lemma {:induction false} ChunksArePlainIff(line: Text, n: nat)
    requires n > 0
    requires forall i :: 0 <= i < |line| - 1 ==> line[i] != LF
    ensures |Chunks(line, n)| <= |Plain(line)|
    ensures Chunks(line, n) == Plain(line) <==> !CutsStray(line, n)
    decreases |line|
  {
    if |line| <= n {
      LastChunkPlain(line);
    } else if line[n] == LF {
      ChunksBeforeLf(line, n);
    } else {
      ChunksArePlainIff(line[n..], n);
      TakeDrop(line, n);
      FirstChunkPlainIff(line[..n], line[n..], n);
    }
  }

  lemma FirstChunkPlainIff(pre: Text, rest: Text, n: nat)
    requires |pre| == n > 0 && rest != [] && rest[0] != LF && LF !in pre
    requires |Chunks(rest, n)| <= |Plain(rest)| && (Chunks(rest, n) == Plain(rest) <==> !CutsStray(rest, n))
    ensures |Chunks(pre + rest, n)| <= |Plain(pre + rest)|
    ensures Chunks(pre + rest, n) == Plain(pre + rest) <==> !CutsStray(pre + rest, n)
  {
    FirstChunk(pre, rest, n);
    PlainConcat(pre, rest);
    FilteredConcat(pre, Chunks(rest, n), Plain(rest));
    TextFilter(pre);
  }

  lemma LastChunkPlain(line: Text)
    ensures |Filter(line)| <= |Plain(line)|
    ensures Filter(line) == Plain(line) <==> line == [] || line[|line| - 1] != CR
  {
  }

  lemma FirstChunk(pre: Text, rest: Text, n: nat)
    requires |pre| == n > 0 && rest != []
    ensures Chunks(pre + rest, n) == Filter(pre) + Chunks(rest, n)
    ensures CutsStray(pre + rest, n) <==> (pre[n - 1] == CR && rest[0] != LF) || CutsStray(rest, n)
  {
    DropAppend(pre, rest);
  }

  /** A buffer that ends just before the LF of its line, with or without the CR. */
  lemma ChunksBeforeLf(line: Text, n: nat)
    requires 0 < n && |line| == n + 1 && line[n] == LF && LF !in line[..n]
    ensures Chunks(line, n) == Filter(line[..n]) == Plain(line)
    ensures !CutsStray(line, n)
  {
  }

  lemma TextFilter(pre: Text)
    requires pre != [] && LF !in pre
    ensures Filter(pre) == pre <==> pre[|pre| - 1] != CR
  {
  }

  lemma PlainConcat(pre: Text, rest: Text)
    requires rest != [] && rest[0] != LF
    ensures Plain(pre + rest) == pre + Plain(rest)
  {
  }

  lemma FilteredConcat(pre: Text, kept: Text, plain: Text)
    requires |kept| <= |plain|
    ensures |Filter(pre) + kept| <= |pre + plain|
    ensures Filter(pre) + kept == pre + plain <==> Filter(pre) == pre && kept == plain
  {
    if Filter(pre) + kept == pre + plain {
      assert |Filter(pre)| == |pre|;
      DropAppend(Filter(pre), kept);
      DropAppend(pre, plain);
    }
  }

  lemma {:induction false} KeptArePlainIff(t: Text, n: nat)
    requires n > 0
    ensures |KeptLines(t, n)| == |PlainLines(t)|
    ensures KeptLines(t, n) == PlainLines(t) <==> !CutsStrayIn(t, n)
    decreases |t|
  {
    ChunksArePlainIff(Head(t), n);
    if LF in t {
      KeptArePlainIff(Tail(t), n);
      assert KeptLines(t, n)[1..] == KeptLines(Tail(t), n);
      assert PlainLines(t)[1..] == PlainLines(Tail(t));
    } else {
      assert Head(t) == t;
    }
  }

  lemma {:induction false} CrBeforeLfNeverCut(line: Text, n: nat)
    requires n > 0
    requires CrBeforeLf(line)
    ensures !CutsStray(line, n)
    decreases |line|
  {
    if |line| > n {
      CrBeforeLfNeverCut(line[n..], n);
    }
  }

  lemma {:induction false} CrBeforeLfNeverCutIn(t: Text, n: nat)
    requires n > 0
    requires CrBeforeLf(t)
    ensures !CutsStrayIn(t, n)
    decreases |t|
  {
    var k := LineLen(t);
    assert LF in t ==> t[k - 1] != CR;
    forall i | 0 <= i < k && t[i] == CR
      ensures i + 1 < k && t[..k][i + 1] == LF
    {
      assert t[i + 1] == LF;
    }
    CrBeforeLfNeverCut(Head(t), n);
    if LF in t {
      forall i | 0 <= i < |Tail(t)| && Tail(t)[i] == CR
        ensures i + 1 < |Tail(t)| && Tail(t)[i + 1] == LF
      {
        assert t[k + i] == CR;
      }
      CrBeforeLfNeverCutIn(Tail(t), n);
    } else {
      assert Head(t) == t;
    }
  }

  // ----- plain lines and the CRLF replacement

  lemma {:induction false} CrlfToLfOfLine(line: Text, rest: Text)
    requires line != [] && line[|line| - 1] == LF
    requires forall i :: 0 <= i < |line| - 1 ==> line[i] != LF
    ensures CrlfToLf(line + rest) == Plain(line) + [LF] + CrlfToLf(rest)
    decreases |line|
  {
    var t := line + rest;
    if |line| == 1 {
      assert line == [LF] && t[1..] == rest;
    } else if |line| == 2 && line[0] == CR {
      assert line == [CR, LF] && t[2..] == rest;
    } else {
      assert t[1..] == line[1..] + rest;
      CrlfToLfOfLine(line[1..], rest);
      PlainCons(line);
    }
  }

  lemma PlainCons(line: Text)
    requires |line| >= 2 && line[|line| - 1] == LF
    requires |line| == 2 ==> line[0] != CR
    ensures Plain(line) == [line[0]] + Plain(line[1..])
  {
  }

  lemma {:induction false} CrlfToLfWithoutLf(t: Text)
    requires LF !in t
    ensures CrlfToLf(t) == t
  {
    if t != [] {
      CrlfToLfWithoutLf(t[1..]);
    }
  }

  lemma {:induction false} PlainLinesJoined(t: Text)
    ensures Flat(PlainLines(t), false) == CrlfToLf(t)
    decreases |t|
  {
    if LF in t {
      assert t == Head(t) + Tail(t);
      PlainLinesJoined(Tail(t));
      CrlfToLfOfLine(Head(t), Tail(t));
      assert PlainLines(t)[1..] == PlainLines(Tail(t));
    } else {
      CrlfToLfWithoutLf(t);
    }
  }

  // ----- joined lines determine the lines

  ghost predicate LfFree(lines: seq<Text>) {
    forall i :: 0 <= i < |lines| ==> LF !in lines[i]
  }

  lemma {:induction false} ChunksLfFree(line: Text, n: nat)
    requires n > 0
    requires forall i :: 0 <= i < |line| - 1 ==> line[i] != LF
    ensures LF !in Chunks(line, n)
    decreases |line|
  {
    if |line| > n {
      ChunksLfFree(line[n..], n);
    }
  }

  lemma {:induction false} KeptLfFree(t: Text, n: nat)
    requires n > 0
    ensures LfFree(KeptLines(t, n))
    decreases |t|
  {
    ChunksLfFree(Head(t), n);
    if LF in t {
      KeptLfFree(Tail(t), n);
    } else {
      assert Head(t) == t;
    }
  }

  lemma JoinHasLf(lines: seq<Text>)
    requires lines != [] && LfFree(lines)
    ensures LF in Flat(lines, false) <==> |lines| > 1
  {
  }

  lemma {:induction false} JoinInjective(x: seq<Text>, y: seq<Text>)
    requires x != [] && y != [] && LfFree(x) && LfFree(y)
    requires Flat(x, false) == Flat(y, false)
    ensures x == y
    decreases |x|
  {
    var t := Flat(x, false);
    if |x| == 1 || |y| == 1 {
      JoinHasLf(x);
      JoinHasLf(y);
    } else {
      HeadOfTerminated(x[0], Flat(x[1..], false));
      HeadOfTerminated(y[0], Flat(y[1..], false));
      assert x[0] == Head(t)[..|Head(t)| - 1] == y[0];
      JoinInjective(x[1..], y[1..]);
      assert x == [x[0]] + x[1..] && y == [y[0]] + y[1..];
    }
  }
}
