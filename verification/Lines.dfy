/** Straight lines of code, as the bounded walks take them. */
module Lines {
  import opened Words
  import opened Machine
  import opened Sweep

  /** The addresses follow one another from `at` on. */
  predicate Chain(p: Program, at: Word, line: seq<Word>)
    decreases |line|
  {
    line == [] ||
    (line[0] == at && at in p.code && at + p.code[at].len < W64 && Chain(p, at + p.code[at].len, line[1..]))
  }

  /** Where the line ends. */
  function AfterAll(p: Program, at: Word, line: seq<Word>): Word
    requires Chain(p, at, line)
    decreases |line|
  {
    if line == [] then at else AfterAll(p, at + p.code[at].len, line[1..])
  }

  /** Nothing comes in at `c`, and four bytes can be read there. */
  predicate Shut(p: Program, c: Word) {
    c in p.code && !IsTarget(p, c) && Readable(p, c)
  }

  lemma {:induction false} ChainAfter(p: Program, at: Word, line: seq<Word>, c: Word)
    requires WellFormed(p) && Chain(p, at, line) && c in line
    ensures at <= c
    decreases |line|
  {
    hide WellFormed;
    if c != line[0] { ChainAfter(p, at + p.code[at].len, line[1..], c); }
  }

  /** A line goes on. */
  lemma ChainStep(p: Program, at: Word, line: seq<Word>)
    requires Chain(p, at, line) && line != []
    ensures line[0] == at && at in p.code && at + p.code[at].len < W64 && Chain(p, at + p.code[at].len, line[1..])
    ensures Wrap(at + p.code[at].len) == at + p.code[at].len
    ensures AfterAll(p, at, line) == AfterAll(p, at + p.code[at].len, line[1..])
    ensures forall c :: c in line <==> c == at || c in line[1..]
  {
  }

  lemma ChainFrom(p: Program, at: Word, line: seq<Word>)
    requires at in p.code && at + p.code[at].len < W64 && Chain(p, at + p.code[at].len, line)
    ensures Chain(p, at, [at] + line) && AfterAll(p, at, [at] + line) == AfterAll(p, at + p.code[at].len, line)
  {
    assert ([at] + line)[1..] == line;
  }

  /** A line before its last instruction. */
  lemma {:induction false} ChainInit(p: Program, at: Word, line: seq<Word>)
    requires Chain(p, at, line) && line != []
    ensures var rest, c := line[..|line| - 1], line[|line| - 1];
            && Chain(p, at, rest) && AfterAll(p, at, rest) == c && c in p.code && c + p.code[c].len < W64
            && AfterAll(p, at, line) == c + p.code[c].len
    decreases |line|
  {
    ChainStep(p, at, line);
    if |line| > 1 {
      var n := at + p.code[at].len;
      ChainInit(p, n, line[1..]);
      var rest := line[..|line| - 1];
      assert rest[1..] == line[1..][..|line| - 2];
      ChainFrom(p, at, rest[1..]);
      assert [at] + rest[1..] == rest;
    }
  }

  /** And with one more. */
  lemma {:induction false} ChainOn(p: Program, at: Word, line: seq<Word>, c: Word)
    requires Chain(p, at, line) && AfterAll(p, at, line) == c && c in p.code && c + p.code[c].len < W64
    ensures Chain(p, at, line + [c]) && AfterAll(p, at, line + [c]) == c + p.code[c].len
    decreases |line|
  {
    if line == [] {
      ChainFrom(p, c, []);
      assert [c] + [] == line + [c];
    } else {
      ChainStep(p, at, line);
      ChainOn(p, at + p.code[at].len, line[1..], c);
      ChainFrom(p, at, line[1..] + [c]);
      assert [at] + (line[1..] + [c]) == line + [c];
    }
  }
}
