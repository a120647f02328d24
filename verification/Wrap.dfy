/** Wrapping text into lines for a region of the screen. Text is a sequence of characters here. */
module Wrap {
  import opened Common

  const NEWLINE := '\n'

  predicate Plain(t: string) {
    forall i :: 0 <= i < |t| ==> t[i] != NEWLINE
  }

  /** Characters up to the first newline, or all of them. */
  function LineLength(t: string): (n: nat)
    ensures n <= |t|
    ensures Plain(t[..n])
    ensures n < |t| ==> t[n] == NEWLINE
  {
    if t == [] || t[0] == NEWLINE then 0 else LineLength(t[1..]) + 1
  }

  function Min(a: nat, b: nat): nat {
    if a < b then a else b
  }

  /** `width / cell.max(1)`, in characters. */
  function MaxChars(width: nat, cell: nat): nat {
    width / if cell == 0 then 1 else cell
  }

  /** One call: how far it takes, and where the cursor goes. A newline right after the line is consumed with it. */
  function Taken(t: string, m: nat): (n: nat)
    ensures n <= |t|
  {
    Min(LineLength(t), m)
  }

  function Consumed(t: string, m: nat): (n: nat)
    ensures n <= |t|
  {
    var n := Taken(t, m);
    if n < |t| && t[n] == NEWLINE then n + 1 else n
  }

  // ----- the reference: split at newlines, then cut each paragraph -----

  /** What follows the first newline. */
  function AfterLine(t: string): (r: string)
    ensures t != [] ==> |r| < |t|
  {
    if LineLength(t) < |t| then t[LineLength(t) + 1..] else []
  }

  /** The text between newlines. A newline at the very end starts no paragraph. */
  function Paragraphs(t: string): seq<string>
    decreases |t|
  {
    if t == [] then [] else [t[..LineLength(t)]] + Paragraphs(AfterLine(t))
  }

  /** Full lines of m characters and what is left; an empty paragraph is one empty line. */
  function Chunks(p: string, m: nat): seq<string>
    requires m >= 1
  {
    if |p| <= m then [p] else [p[..m]] + Chunks(p[m..], m)
  }

  function ChunkAll(ps: seq<string>, m: nat): seq<string>
    requires m >= 1
  {
    if ps == [] then [] else Chunks(ps[0], m) + ChunkAll(ps[1..], m)
  }

  function SplitThenChunk(t: string, m: nat): seq<string>
    requires m >= 1
  {
    ChunkAll(Paragraphs(t), m)
  }

  lemma {:induction false} LineLengthUnique(t: string, n: nat)
    requires n <= |t| && Plain(t[..n]) && (n < |t| ==> t[n] == NEWLINE)
    ensures LineLength(t) == n
  {
    if n > 0 {
      assert t[..n][0] == t[0];
      var tail := t[1..][..n - 1];
      forall i | 0 <= i < |tail| ensures tail[i] != NEWLINE {
        assert t[..n][i + 1] == tail[i];
      }
      LineLengthUnique(t[1..], n - 1);
    }
  }

  lemma CutLength(t: string, m: nat)
    requires m < LineLength(t)
    ensures LineLength(t[m..]) == LineLength(t) - m
    ensures t[m..][..LineLength(t) - m] == t[..LineLength(t)][m..]
  {
    var n := LineLength(t);
    var left := t[m..][..n - m];
    assert left == t[..n][m..];
    forall i | 0 <= i < |left| ensures left[i] != NEWLINE {
      assert t[..n][m + i] == left[i];
    }
    LineLengthUnique(t[m..], n - m);
  }

  /** After a line cut short the rest of its paragraph is still ahead, and starts the rest of the text. */
  lemma CutParagraph(t: string, m: nat)
    requires 1 <= m < LineLength(t)
    ensures AfterLine(t[m..]) == AfterLine(t)
  {
    hide LineLength, Plain;
    CutLength(t, m);
  }

  /** Each call yields the next line of the reference. */
  lemma NextIsHead(t: string, m: nat)
    requires m >= 1 && t != []
    ensures Consumed(t, m) >= 1
    ensures SplitThenChunk(t, m) == [t[..Taken(t, m)]] + SplitThenChunk(t[Consumed(t, m)..], m)
  {
    var n, c, more := LineLength(t), Consumed(t, m), Paragraphs(AfterLine(t));
    assert n == 0 ==> t[0] == NEWLINE;
    if n <= m {
      assert t[c..] == AfterLine(t);
      assert Paragraphs(t) == [t[..n]] + more;
      hide Paragraphs, LineLength, AfterLine;
      assert ([t[..n]] + more)[1..] == more;
      assert Chunks(t[..n], m) == [t[..n]];
    } else {
      assert c == m by { assert t[..n][m] == t[m]; }
      CutParagraph(t, m);
      CutLength(t, m);
      assert Paragraphs(t) == [t[..n]] + more;
      assert Paragraphs(t[m..]) == [t[..n][m..]] + more;
      hide Paragraphs, LineLength, AfterLine;
      CutChunks(t[..n], more, m);
      assert t[..n][..m] == t[..m];
    }
  }

  lemma CutChunks(p: string, ps: seq<string>, m: nat)
    requires 1 <= m < |p|
    ensures ChunkAll([p] + ps, m) == [p[..m]] + ChunkAll([p[m..]] + ps, m)
  {
    assert ([p] + ps)[1..] == ps && ([p[m..]] + ps)[1..] == ps;
  }

  // ----- what the reference gives -----

  function Joined(lines: seq<string>): string {
    if lines == [] then [] else lines[0] + Joined(lines[1..])
  }

  function Kept(c: char): string {
    if c == NEWLINE then [] else [c]
  }

  function WithoutNewlines(t: string): string {
    if t == [] then [] else Kept(t[0]) + WithoutNewlines(t[1..])
  }

  lemma {:induction false} WithoutNewlinesOn(a: string, b: string)
    ensures WithoutNewlines(a + b) == WithoutNewlines(a) + WithoutNewlines(b)
  {
    hide Kept;
    if a == [] {
      assert a + b == b;
    } else {
      assert (a + b)[0] == a[0] && (a + b)[1..] == a[1..] + b;
      WithoutNewlinesOn(a[1..], b);
      var k, x, y := Kept(a[0]), WithoutNewlines(a[1..]), WithoutNewlines(b);
      assert k + (x + y) == (k + x) + y;
    }
  }

  lemma {:induction false} NothingToDrop(a: string)
    requires Plain(a)
    ensures WithoutNewlines(a) == a
  {
    if a != [] { NothingToDrop(a[1..]); }
  }

  lemma TakenIsPlain(t: string, m: nat)
    ensures Plain(t[..Taken(t, m)])
  {
    var n, k := LineLength(t), Taken(t, m);
    forall i | 0 <= i < k ensures t[..k][i] != NEWLINE {
      assert t[..n][i] == t[..k][i];
    }
  }

  lemma InTwo(t: string, k: nat)
    requires k <= |t|
    ensures WithoutNewlines(t) == WithoutNewlines(t[..k]) + WithoutNewlines(t[k..])
  {
    hide WithoutNewlines;
    WithoutNewlinesOn(t[..k], t[k..]);
    assert t[..k] + t[k..] == t;
  }

  lemma DropConsumed(t: string, m: nat)
    ensures WithoutNewlines(t) == t[..Taken(t, m)] + WithoutNewlines(t[Consumed(t, m)..])
  {
    var k := Taken(t, m);
    TakenIsPlain(t, m);
    NothingToDrop(t[..k]);
    InTwo(t, k);
    assert k < |t| && t[k] == NEWLINE ==> WithoutNewlines(t[k..]) == WithoutNewlines(t[k + 1..]) by {
      hide Taken, Consumed, LineLength, Plain;
      if k < |t| && t[k] == NEWLINE { SkipNewline(t[k..]); }
    }
    hide WithoutNewlines, Taken, LineLength, Plain;
  }

  lemma SkipNewline(t: string)
    requires t != [] && t[0] == NEWLINE
    ensures WithoutNewlines(t) == WithoutNewlines(t[1..])
  {
    assert Kept(t[0]) == [];
    hide Kept;
    assert [] + WithoutNewlines(t[1..]) == WithoutNewlines(t[1..]);
  }

  /** Every line fits and has no newline, and together they are the text with its newlines taken out. */
  lemma {:induction false} LinesFit(t: string, m: nat)
    requires m >= 1
    ensures forall l <- SplitThenChunk(t, m) :: |l| <= m && Plain(l)
    ensures Joined(SplitThenChunk(t, m)) == WithoutNewlines(t)
    decreases |t|
  {
    if t == [] {
    } else {
      var k, c := Taken(t, m), Consumed(t, m);
      var lines, rest := SplitThenChunk(t, m), SplitThenChunk(t[c..], m);
      assert k <= m;
      hide SplitThenChunk, Taken, Consumed, WithoutNewlines, Plain;
      NextIsHead(t, m);
      LinesFit(t[c..], m);
      TakenIsPlain(t, m);
      DropConsumed(t, m);
      assert lines[0] == t[..k] && lines[1..] == rest;
    }
  }

  /**
   Each line in turn, without the reference: it is the next piece of the text, has no newline, and is shorter than
   the region only where the text ends or a newline follows. One newline behind a line goes with it.
   */
  lemma LineIs(t: string, m: nat)
    requires m >= 1 && t != []
    ensures SplitThenChunk(t, m) != []
    ensures var line := SplitThenChunk(t, m)[0];
            && |line| <= |t| && line == t[..|line|] && Plain(line) && |line| <= m
            && (|line| < m ==> |line| == |t| || t[|line|] == NEWLINE)
            && SplitThenChunk(t, m)[1..]
               == SplitThenChunk(t[if |line| < |t| && t[|line|] == NEWLINE then |line| + 1 else |line|..], m)
  {
    NextIsHead(t, m);
    TakenIsPlain(t, m);
    hide SplitThenChunk, Plain;
  }

  /** As many characters as fit; a character without width counts as one wide. */
  lemma MaxCharsFit(width: nat, cell: nat)
    ensures cell >= 1 ==> MaxChars(width, cell) * cell <= width < (MaxChars(width, cell) + 1) * cell
    ensures cell == 0 ==> MaxChars(width, cell) == width
  {
  }

  // ----- when the iterator ends -----

  /** The text ahead of the cursor after so many calls. */
  function Ahead(t: string, m: nat, calls: nat): string {
    if calls == 0 then t else Ahead(t[Consumed(t, m)..], m, calls - 1)
  }

  predicate OnlyNewlines(t: string) {
    forall i :: 0 <= i < |t| ==> t[i] == NEWLINE
  }

  lemma {:induction false} EndsWithin(t: string, m: nat) returns (calls: nat)
    requires m >= 1 || OnlyNewlines(t)
    ensures calls <= |t| && Ahead(t, m, calls) == []
    decreases |t|
  {
    if t == [] {
      calls := 0;
    } else {
      var c := Consumed(t, m);
      assert c >= 1 by {
        if m >= 1 { NextIsHead(t, m); }
      }
      var rest := EndsWithin(t[c..], m);
      calls := rest + 1;
    }
  }

  lemma {:induction false} StuckForever(t: string, calls: nat)
    requires !OnlyNewlines(t)
    ensures !OnlyNewlines(Ahead(t, 0, calls))
    decreases calls
  {
    if calls == 0 {
    } else {
      var c := Consumed(t, 0);
      var i :| 0 <= i < |t| && t[i] != NEWLINE;
      assert i >= c;
      assert t[c..][i - c] == t[i];
      StuckForever(t[c..], calls - 1);
    }
  }

  /** A region narrower than one character never gets past anything but newlines; any other comes to an end. */
  lemma EndsIff(t: string, m: nat)
    ensures (exists calls: nat :: Ahead(t, m, calls) == []) <==> m >= 1 || OnlyNewlines(t)
  {
    if m >= 1 || OnlyNewlines(t) {
      var calls := EndsWithin(t, m);
      assert Ahead(t, m, calls) == [];
    } else {
      forall calls: nat ensures Ahead(t, m, calls) != [] {
        StuckForever(t, calls);
      }
    }
  }

  // ----- the iterator -----

  lemma Advance(s: string, cursor: nat, m: nat)
    requires cursor <= |s|
    ensures var rest, k := s[cursor..], Taken(s[cursor..], m);
            && Consumed(rest, m) == k + (if cursor + k < |s| && s[cursor + k] == NEWLINE then 1 else 0)
            && rest[Consumed(rest, m)..] == s[cursor + Consumed(rest, m)..]
  {
    hide LineLength, Plain;
  }

  class WrapIter {
    const s: string
    const width: nat
    const cell: nat
    var cursor: nat

    /** `cell` is the width of a character with its spacing. */
    constructor (s: string, width: nat, cell: nat)
      ensures this.s == s && this.width == width && this.cell == cell && cursor == 0
    {
      this.s, this.width, this.cell, cursor := s, width, cell, 0;
    }

    ghost predicate Valid()
      reads this
    {
      cursor <= |s|
    }

    /** What is still to be wrapped. */
    ghost function Rest(): string
      reads this
      requires Valid()
    {
      s[cursor..]
    }

    method Next() returns (line: Option<string>)
      requires Valid()
      modifies this
      ensures Valid()
      ensures line == None <==> old(Rest()) == []
      ensures line == None ==> cursor == old(cursor)
      ensures line.Some? ==>
                var m := MaxChars(width, cell);
                && line.value == old(Rest())[..Taken(old(Rest()), m)]
                && Rest() == old(Rest())[Consumed(old(Rest()), m)..]
                && (m >= 1 ==> SplitThenChunk(old(Rest()), m) == [line.value] + SplitThenChunk(Rest(), m))
    {
      hide SplitThenChunk, LineLength, Plain, MaxChars;
      if cursor >= |s| {
        return None;
      }
      var remaining := s[cursor..];
      var nl := FindNewline(remaining);
      var chunk := remaining[..nl];
      var maxChars := MaxChars(width, cell);
      var take := if maxChars < |chunk| then maxChars else |chunk|;
      line := Some(chunk[..take]);
      assert take == Taken(remaining, maxChars) && chunk[..take] == remaining[..take];
      Advance(s, cursor, maxChars);
      hide Taken, Consumed;
      if maxChars >= 1 { NextIsHead(remaining, maxChars); }
      cursor := cursor + take;
      if cursor < |s| && s[cursor] == NEWLINE {
        cursor := cursor + 1;
      }
    }

    static method FindNewline(t: string) returns (n: nat)
      ensures n == LineLength(t)
    {
      n := 0;
      while n < |t| && t[n] != NEWLINE
        invariant n <= |t| && Plain(t[..n])
      {
        n := n + 1;
      }
      LineLengthUnique(t, n);
    }
  }

  /** The lines read so far and those of the rest, one line further. */
  lemma OneLineOn(lines: seq<string>, line: string, rest: seq<string>)
    ensures (lines + [line]) + rest == lines + ([line] + rest)
  {
  }

  lemma NothingLeft(m: nat)
    requires m >= 1
    ensures SplitThenChunk([], m) == []
  {
  }

  /** Draining the iterator, for a region at least one character wide, gives the reference. */
  method WrapLines(s: string, width: nat, cell: nat) returns (lines: seq<string>)
    requires MaxChars(width, cell) >= 1
    ensures lines == SplitThenChunk(s, MaxChars(width, cell))
  {
    hide SplitThenChunk, Taken, Consumed, MaxChars, Chunks, Paragraphs, ChunkAll, AfterLine, LineLength, Plain;
    ghost var m := MaxChars(width, cell);
    NothingLeft(m);
    var it := new WrapIter(s, width, cell);
    assert it.Rest() == s;
    lines := [];
    ghost var rest := s;
    var line := it.Next();
    assert line.Some? ==> lines + ([line.value] + SplitThenChunk(it.Rest(), m)) == SplitThenChunk(s, m);
    while line.Some?
      invariant it.Valid() && it.s == s && it.width == width && it.cell == cell && fresh(it)
      invariant line.Some? ==> lines + ([line.value] + SplitThenChunk(it.Rest(), m)) == SplitThenChunk(s, m)
      invariant line == None ==> lines == SplitThenChunk(s, m)
      decreases |s| - it.cursor, if line.Some? then 1 else 0
    {
      rest := it.Rest();
      OneLineOn(lines, line.value, SplitThenChunk(rest, m));
      lines := lines + [line.value];
      assert lines + SplitThenChunk(rest, m) == SplitThenChunk(s, m);
      line := it.Next();
      if line == None {
        assert rest == [] && lines + [] == lines;
      }
    }
  }
}
