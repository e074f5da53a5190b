/** The streaming line comparator (judge/compare.go), over buffered readers and running hashes. */
module Compare {
  import opened Lines
  import opened Seqs

  /** The errors of a buffered read; Broken is any failure of the underlying input. */
  datatype ReadError = NoError | EOF | BufferFull | Broken

  datatype Verdict = Verdict(equal: bool) | Failed

  /** A buffered reader over the bytes it has not returned yet. */
  class Reader {
    var rest: Text
    const size: nat
    const broken: bool  // the input ends in a failure instead of the end of the file

    constructor (text: Text, size: nat, broken: bool)
      ensures rest == text && this.size == size && this.broken == broken
    {
      rest := text;
      this.size := size;
      this.broken := broken;
    }

    /** Reads through the next LF, a full buffer without one, or what is left. */
    method ReadSlice() returns (b: Text, err: ReadError)
      requires size > 0
      modifies this
      ensures old(rest) == b + rest && |b| <= size
      ensures err == NoError ==> LF in old(rest) && b == Head(old(rest)) && rest == Tail(old(rest))
      ensures err == BufferFull ==> |b| == size && LF !in b
      ensures err == EOF || err == Broken ==> rest == [] && LF !in b && (err == Broken <==> broken)
    {
      var n := LineLen(rest);
      if LF in rest && n <= size {
        b, rest, err := rest[..n], rest[n..], NoError;
        return;
      }
      // When exactly a full buffer is left, the end of the input may or may not be known yet.
      var endKnown: bool := *;
      if |rest| > size || (|rest| == size && !endKnown) {
        assert LF in rest ==> rest[..size] == rest[..n - 1][..size];
        b, rest, err := rest[..size], rest[size..], BufferFull;
      } else {
        b, rest, err := rest, [], if broken then Broken else EOF;
      }
    }
  }

  /** A hash without collisions: its sum is everything written to it. */
  class Hash {
    var written: Text

    constructor ()
      ensures written == []
    {
      written := [];
    }

    method Write(data: Text)
      modifies this
      ensures written == old(written) + data
    {
      written := written + data;
    }

    function Sum(): Text
      reads this
    {
      written
    }
  }

  /** Hashes the next line, whatever the buffer cuts it into. */
  method IterHash(r: Reader, h: Hash, ignoreNewline: bool) returns (err: ReadError)
    requires r.size > 0
    modifies r, h
    ensures err == if LF in old(r.rest) then NoError else if r.broken then Broken else EOF
    ensures err == NoError ==> r.rest == Tail(old(r.rest))
    ensures err == NoError ==>
              h.written == old(h.written) + Chunks(Head(old(r.rest)), r.size) + Terminator(ignoreNewline)
    ensures err == EOF ==> r.rest == [] && h.written == old(h.written) + Chunks(old(r.rest), r.size)
  {
    ghost var text, total := r.rest, h.written + Chunks(Head(r.rest), r.size);
    var b: Text;
    while true
      invariant Hashing(text, total, r.rest, h.written, r.size)
      decreases |r.rest|
    {
      ghost var left, written := r.rest, h.written;
      b, err := r.ReadSlice();
      if err == NoError || err == EOF {
        HashingEnds(text, total, left, written, r.size, b);
        break;
      }
      if err != BufferFull {
        return;
      }
      HashingStep(text, total, b, r.rest, written, r.size);
      h.Write(Filter(b));
    }
    FinishLine(h, b, ignoreNewline);
  }

  /** Hashes the last buffer of a line, and its LF unless there is none or it is ignored. */
  method FinishLine(h: Hash, b: Text, ignoreNewline: bool)
    modifies h
    ensures h.written == old(h.written) + Filter(b)
                         + if b != [] && b[|b| - 1] == LF then Terminator(ignoreNewline) else []
  {
    var trim := Filter(b);
    h.Write(trim);
    if ignoreNewline || |b| == |trim| || (b != [] && b[|b| - 1] != LF) {
      return;
    }
    h.Write([LF]);
  }

  /** Part of the first line of text is hashed and rest is left; the whole line will bring the hash to total. */
  ghost predicate Hashing(text: Text, total: Text, rest: Text, written: Text, size: nat)
    requires size > 0
  {
    && (LF in rest <==> LF in text)
    && Tail(rest) == Tail(text)
    && written + Chunks(Head(rest), size) == total
  }

  lemma HashingStep(text: Text, total: Text, b: Text, rest: Text, written: Text, size: nat)
    requires size > 0 && |b| == size && LF !in b
    requires Hashing(text, total, b + rest, written, size)
    ensures Hashing(text, total, rest, written + Filter(b), size)
  {
    HeadTailAppend(b, rest);
    ChunksStep(b, Head(rest), size);
  }

  lemma HashingEnds(text: Text, total: Text, left: Text, written: Text, size: nat, b: Text)
    requires size > 0 && |b| <= size && b == Head(left)
    requires Hashing(text, total, left, written, size)
    ensures written + Filter(b) == total
    ensures LF in text ==> b != [] && b[|b| - 1] == LF
    ensures LF !in text ==> Head(text) == text && LF !in b
  {
  }

  lemma ChunksStep(b: Text, rest: Text, n: nat)
    requires n > 0 && |b| == n && LF !in b
    ensures Chunks(b + rest, n) == Filter(b) + Chunks(rest, n)
  {
  }

  /** The number of terminated lines that both sides have. */
  function CommonLines(x: seq<Text>, y: seq<Text>): nat
    requires x != [] && y != []
  {
    if |x| < |y| then |x| - 1 else |y| - 1
  }

  predicate CommonLinesAgree(x: seq<Text>, y: seq<Text>)
    requires x != [] && y != []
  {
    x[..CommonLines(x, y)] == y[..CommonLines(x, y)]
  }

  /** The comparison as a statement about lines: the common terminated lines agree, and so do the wholes. */
  predicate SameLines(x: seq<Text>, y: seq<Text>, ignoreNewline: bool)
    requires x != [] && y != []
  {
    CommonLinesAgree(x, y) && Flat(x, ignoreNewline) == Flat(y, ignoreNewline)
  }

  method CompareLines2(expected: Text, actual: Text, size: nat, brokenExpected: bool, brokenActual: bool,
                       ignoreNewline: bool)
    returns (verdict: Verdict)
    requires size > 0
    ensures var x, y := KeptLines(expected, size), KeptLines(actual, size);
            verdict == if (brokenExpected || brokenActual) && CommonLinesAgree(x, y) then Failed
                       else Verdict(SameLines(x, y, ignoreNewline) && !brokenExpected && !brokenActual)
  {
    var expectReader := new Reader(expected, size, brokenExpected);
    var actualReader := new Reader(actual, size, brokenActual);
    var expectHash := new Hash();
    var actualHash := new Hash();
    var finExpect, finActual := false, false;
    ghost var wantE, wantA := KeptLines(expected, size), KeptLines(actual, size);
    ghost var k := 0;  // the terminated lines found equal so far
    ReadingStarts(expected, size, ignoreNewline);
    ReadingStarts(actual, size, ignoreNewline);
    while true
      invariant expectReader.size == size && expectReader.broken == brokenExpected
      invariant actualReader.size == size && actualReader.broken == brokenActual
      invariant !finExpect && !finActual && Agree(wantE, wantA, k)
      invariant Reading(wantE, k, expectReader.rest, expectHash.written, ignoreNewline, size)
      invariant Reading(wantA, k, actualReader.rest, actualHash.written, ignoreNewline, size)
      decreases |expectReader.rest|
    {
      var err := HashLine(expectReader, expectHash, ignoreNewline, wantE, k);
      if err != NoError {
        finExpect := true;
        OnlyWholeMatters(wantE, wantA, k, ignoreNewline);
        if err != EOF {
          return Failed;
        }
        break;
      }
      err := HashLine(actualReader, actualHash, ignoreNewline, wantA, k);
      if err != NoError {
        finActual := true;
        OnlyWholeMatters(wantE, wantA, k, ignoreNewline);
        if err != EOF {
          return Failed;
        }
        break;
      }
      HashesTell(wantE, wantA, k, ignoreNewline);
      if expectHash.Sum() != actualHash.Sum() {
        return Verdict(false);
      }
      k := k + 1;
    }
    verdict := FinishComparison(expectReader, actualReader, expectHash, actualHash, finExpect, finActual, ignoreNewline,
                                wantE, wantA, k);
  }

  /** Where the reading of one side stands: at its end, or after its first k lines. */
  ghost predicate Standing(fin: bool, want: seq<Text>, k: nat, rest: Text, written: Text, broken: bool,
                           ignoreNewline: bool, size: nat)
    requires size > 0
  {
    if fin then !broken && written == Flat(want, ignoreNewline)
    else Reading(want, k, rest, written, ignoreNewline, size)
  }

  /** Reads what is left on either side and compares the whole. */
  method FinishComparison(expectReader: Reader, actualReader: Reader, expectHash: Hash, actualHash: Hash,
                          finExpect: bool, finActual: bool, ignoreNewline: bool,
                          ghost wantE: seq<Text>, ghost wantA: seq<Text>, ghost k: nat)
    returns (verdict: Verdict)
    requires expectReader.size > 0 && actualReader.size > 0
    requires expectReader != actualReader && expectHash != actualHash
    requires Standing(finExpect, wantE, k + 1, expectReader.rest, expectHash.written, expectReader.broken,
                      ignoreNewline, expectReader.size)
    requires Standing(finActual, wantA, k, actualReader.rest, actualHash.written, actualReader.broken,
                      ignoreNewline, actualReader.size)
    modifies expectReader, actualReader, expectHash, actualHash
    ensures if expectReader.broken || actualReader.broken then verdict == Failed
            else verdict == Verdict(Flat(wantE, ignoreNewline) == Flat(wantA, ignoreNewline))
  {
    if !finExpect {
      var err := ReadToEnd(expectReader, expectHash, ignoreNewline, wantE, k + 1);
      if err != EOF {
        return Failed;
      }
    }
    if !finActual {
      var err := ReadToEnd(actualReader, actualHash, ignoreNewline, wantA, k);
      if err != EOF {
        return Failed;
      }
    }
    return Verdict(expectHash.Sum() == actualHash.Sum());
  }

  /** Both sides have more than k lines, and the first k agree. */
  ghost predicate Agree(x: seq<Text>, y: seq<Text>, k: nat) {
    k < |x| && k < |y| && x[..k] == y[..k]
  }

  /** After k equal lines, the hashes of one more terminated line each are equal exactly when those lines are. */
  lemma HashesTell(x: seq<Text>, y: seq<Text>, k: nat, ignoreNewline: bool)
    requires Agree(x, y, k) && k + 1 < |x| && k + 1 < |y|
    ensures if FlatPrefix(x[..k + 1], ignoreNewline) == FlatPrefix(y[..k + 1], ignoreNewline)
            then Agree(x, y, k + 1) else !CommonLinesAgree(x, y)
  {
    var written, end := FlatPrefix(x[..k], ignoreNewline), Terminator(ignoreNewline);
    assert x[..k + 1][..k] == x[..k] && y[..k + 1][..k] == y[..k];
    var e, a := written + x[k] + end, written + y[k] + end;
    assert e[|written|..|e| - |end|] == x[k] && a[|written|..|a| - |end|] == y[k];
    var m := CommonLines(x, y);
    assert x[..m][k] == x[k] && y[..m][k] == y[k];
  }

  /** When one side has just k terminated lines, which agree, the comparison is that of the whole texts. */
  lemma OnlyWholeMatters(x: seq<Text>, y: seq<Text>, k: nat, ignoreNewline: bool)
    requires Agree(x, y, k) && (|x| == k + 1 || |y| == k + 1)
    ensures CommonLinesAgree(x, y)
    ensures SameLines(x, y, ignoreNewline) <==> Flat(x, ignoreNewline) == Flat(y, ignoreNewline)
  {
    assert CommonLines(x, y) == k;
  }

  /** Hashes all lines that are left. */
  method ReadToEnd(r: Reader, h: Hash, ignoreNewline: bool, ghost want: seq<Text>, ghost before: nat)
    returns (err: ReadError)
    requires r.size > 0 && Reading(want, before, r.rest, h.written, ignoreNewline, r.size)
    modifies r, h
    ensures err == EOF || err == Broken
    ensures if r.broken then err == Broken else err == EOF && h.written == Flat(want, ignoreNewline)
  {
    ghost var k := before;
    while true
      invariant Reading(want, k, r.rest, h.written, ignoreNewline, r.size)
      decreases |r.rest|
    {
      err := HashLine(r, h, ignoreNewline, want, k);
      if err != NoError {
        return;
      }
      k := k + 1;
    }
  }

  /** Hashes line k, the next one of want. */
  method HashLine(r: Reader, h: Hash, ignoreNewline: bool, ghost want: seq<Text>, ghost k: nat)
    returns (err: ReadError)
    requires r.size > 0 && Reading(want, k, r.rest, h.written, ignoreNewline, r.size)
    modifies r, h
    ensures k < |want|
    ensures err == if k + 1 < |want| then NoError else if r.broken then Broken else EOF
    ensures err == NoError ==> Reading(want, k + 1, r.rest, h.written, ignoreNewline, r.size)
    ensures err == NoError ==> |r.rest| < |old(r.rest)| && h.written == FlatPrefix(want[..k + 1], ignoreNewline)
    ensures err == EOF ==> h.written == Flat(want, ignoreNewline)
  {
    ghost var rest, written := r.rest, h.written;
    ReadingStep(want, k, rest, written, ignoreNewline, r.size);
    err := IterHash(r, h, ignoreNewline);
  }

  ghost predicate IsKept(rest: Text, size: nat, lines: seq<Text>)
    requires size > 0
  {
    lines == KeptLines(rest, size)
  }

  /** A reader has hashed the first k lines of want and still has rest to read. */
  ghost predicate Reading(want: seq<Text>, k: nat, rest: Text, written: Text, ignoreNewline: bool, size: nat)
    requires size > 0
  {
    forall later {:trigger IsKept(rest, size, later)} ::
      IsKept(rest, size, later) ==> k < |want| && want[k..] == later && written == FlatPrefix(want[..k], ignoreNewline)
  }

  lemma ReadingStarts(text: Text, size: nat, ignoreNewline: bool)
    requires size > 0
    ensures Reading(KeptLines(text, size), 0, text, [], ignoreNewline, size)
    ensures KeptLines(text, size) != []
  {
  }

  lemma ReadingStep(want: seq<Text>, k: nat, rest: Text, written: Text, ignoreNewline: bool, size: nat)
    requires size > 0 && Reading(want, k, rest, written, ignoreNewline, size)
    ensures k < |want| && (k + 1 < |want| <==> LF in rest)
    ensures LF in rest ==>
              var written' := written + Chunks(Head(rest), size) + Terminator(ignoreNewline);
              && written' == FlatPrefix(want[..k + 1], ignoreNewline)
              && Reading(want, k + 1, Tail(rest), written', ignoreNewline, size)
    ensures LF !in rest ==> Flat(want, ignoreNewline) == written + Chunks(rest, size)
  {
    var lines := KeptLines(rest, size);
    assert IsKept(rest, size, lines);
    if LF in rest {
      LaterLines(want, k, lines);
      OneMorePrefix(want, k, ignoreNewline);
      assert lines[1..] == KeptLines(Tail(rest), size);
    } else {
      TakeDrop(want, k);
      FlatSplit(want[..k], lines, ignoreNewline);
    }
  }

  lemma LaterLines(want: seq<Text>, k: nat, lines: seq<Text>)
    requires k <= |want| && want[k..] == lines && lines != []
    ensures k < |want| && want[k] == lines[0] && want[k + 1..] == lines[1..]
  {
  }

  lemma OneMorePrefix(want: seq<Text>, k: nat, ignoreNewline: bool)
    requires k < |want|
    ensures FlatPrefix(want[..k + 1], ignoreNewline)
         == FlatPrefix(want[..k], ignoreNewline) + want[k] + Terminator(ignoreNewline)
  {
    assert want[..k + 1][..k] == want[..k];
  }
}
