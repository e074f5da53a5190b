/** File names, cleaned paths and slash-separated ids, as the file store uses them. */
module Paths {
  import opened Seqs

  /** A cleaned absolute path, component by component. */
  type Path = seq<string>

  predicate SlashFree(s: string) {
    '/' !in s
  }

  /** A component that cleaning leaves alone. */
  predicate PlainName(s: string) {
    s != "" && s != "." && s != ".." && SlashFree(s)
  }

  /** Splits at every slash; there is always one part more than slashes. */
  function Split(s: string): (parts: seq<string>)
    ensures parts != []
    ensures forall part :: part in parts ==> SlashFree(part)
  {
    if s == "" then [""]
    else if s[0] == '/' then [""] + Split(s[1..])
    else
      var parts := Split(s[1..]);
      assert parts[0] in parts && SlashFree([s[0]] + parts[0]);
      [[s[0]] + parts[0]] + parts[1..]
  }

  /** Follows relative components from an absolute path: empty ones and dots stay, double dots go up. */
  function Walk(base: Path, parts: seq<string>): Path
    decreases |parts|
  {
    if parts == [] then base
    else if parts[0] == "" || parts[0] == "." then Walk(base, parts[1..])
    else if parts[0] == ".." then Walk(if base == [] then [] else base[..|base| - 1], parts[1..])
    else Walk(base + [parts[0]], parts[1..])
  }

  /** Joining and cleaning two slash-free components of a relative path. */
  function JoinPair(a: string, b: string): string {
    if a == "" && b == "" then ""
    else if b == "" || b == "." then (if a == "" then "." else a)
    else if a == "" || a == "." then b
    else if a == ".." then "../" + b
    else if b == ".." then "."
    else a + "/" + b
  }

  lemma {:induction false} SplitSlashFree(s: string)
    requires SlashFree(s)
    ensures Split(s) == [s]
  {
    if s != "" {
      SplitSlashFree(s[1..]);
      HeadFirst(s);
    }
  }

  lemma {:induction false} SplitAtSlash(a: string, rest: string)
    requires SlashFree(a)
    ensures Split(a + "/" + rest) == [a] + Split(rest)
  {
    var s := a + "/" + rest;
    if a == "" {
      assert s[1..] == rest;
    } else {
      assert s[1..] == a[1..] + "/" + rest;
      SplitAtSlash(a[1..], rest);
      HeadFirst(a);
    }
  }

  /** Splitting tells whether there is a slash. */
  lemma {:induction false} SplitLength(s: string)
    ensures |Split(s)| == 1 <==> SlashFree(s)
  {
    if s != "" {
      SplitLength(s[1..]);
      HeadFirst(s);
    }
  }

  lemma SplitTriple(a: string, b: string, c: string)
    requires SlashFree(a) && SlashFree(b)
    ensures Split(a + "/" + b + "/" + c) == [a, b] + Split(c)
  {
    assert a + "/" + b + "/" + c == a + "/" + (b + "/" + c);
    SplitAtSlash(a, b + "/" + c);
    SplitAtSlash(b, c);
  }

  /** The first slash after a slash-free part can be found again. */
  lemma SlashUnique(a: string, b: string, a': string, b': string)
    requires SlashFree(a) && SlashFree(a')
    requires a + "/" + b == a' + "/" + b'
    ensures a == a' && b == b'
  {
    SplitAtSlash(a, b);
    SplitAtSlash(a', b');
    assert ([a] + Split(b))[0] == ([a'] + Split(b'))[0];
    DropAppend(a + "/", b);
    DropAppend(a' + "/", b');
  }

  /** A joined pair that names a file in a directory comes from just those two names. */
  lemma JoinPairInverse(a: string, b: string, dir: string, name: string)
    requires SlashFree(a) && SlashFree(b) && PlainName(dir) && PlainName(name)
    ensures JoinPair(a, b) == dir + "/" + name <==> a == dir && b == name
  {
    if JoinPair(a, b) == dir + "/" + name {
      assert '/' in dir + "/" + name by {
        assert (dir + "/" + name)[|dir|] == '/';
      }
      if a == ".." && b != "" && b != "." {
        assert ".." + "/" + b == "../" + b;
        SlashUnique("..", b, dir, name);
      } else {
        SlashUnique(a, b, dir, name);
      }
    }
  }

  /** A slash-free name never leads from a directory to a path longer than its own. */
  lemma WalkSlashFree(base: Path, name: string)
    requires SlashFree(name)
    ensures Walk(base, Split(name)) == if name == "" || name == "." then base
                                       else if name == ".." then (if base == [] then [] else base[..|base| - 1])
                                       else base + [name]
  {
    SplitSlashFree(name);
    assert [name][1..] == [];
  }

  /** A joined and cleaned pair leads where its parts lead one after the other. */
  lemma JoinPairLeadsThere(base: Path, a: string, b: string)
    requires SlashFree(a) && SlashFree(b)
    ensures Walk(base, Split(JoinPair(a, b))) == Walk(Walk(base, Split(a)), Split(b))
  {
    WalkSlashFree(base, a);
    WalkSlashFree(Walk(base, Split(a)), b);
    var joined := JoinPair(a, b);
    if SlashFree(joined) {
      WalkSlashFree(base, joined);
    } else {
      assert joined == a + "/" + b;
      SplitAtSlash(a, b);
      SplitSlashFree(b);
      assert [a, b][1..] == [b] && [b][1..] == [];
    }
  }
}
