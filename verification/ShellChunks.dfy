/** Where the shell cuts its input into chunks, said by the lines and the white space in
    them. */
module ShellChunks {
  import opened Shell
  import opened Text
  import opened Trimming

  /** The text ends in a semicolon, white space aside. */
  ghost predicate EndsStatement(text: string) {
    exists x, w :: White(w) && text == x + ";" + w
  }

  lemma FlushesExactly(text: string)
    ensures Flushes(text) <==> EndsStatement(text)
  {
    hide White, TrimSpace, Edged, Neutral, Blank, FrontSpace, BackSpace;
    var t := TrimSpace(text);
    var u, v := TrimShape(text);
    BlankExactly(v);
    if Flushes(text) {
      assert t == t[..|t| - 1] + ";";
      assert text == (u + t[..|t| - 1]) + ";" + v;
    }
    if EndsStatement(text) {
      var x, w :| White(w) && text == x + ";" + w;
      BlankExactly(w);
      SemicolonStays(x, w);
    }
  }

  lemma SemicolonStays(x: string, w: string)
    requires Blank(w)
    ensures Flushes(x + ";" + w)
  {
    hide TrimSpace, Neutral, Blank, FrontSpace, BackSpace;
    var s := x + ";";
    var u, v := TrimShape(s);
    var t := TrimSpace(s);
    SemicolonIsSolid();
    assert s[|s| - 1] == ';' && "" + u == u;
    BlankBehind(u + t, v);
    BlankBehind("", u);
    assert s == u + t && t[|t| - 1] == ';';
    TrimsTo(u, t, w);
  }

  lemma BlankBehind(a: string, w: string)
    requires Blank(w)
    ensures w != "" ==> Neutral((a + w)[|a + w| - 1])
  {
    hide Neutral, Blank;
    BlankIsNeutral(w);
    if w != "" { assert w[|w| - 1] in w; }
  }

  lemma SemicolonIsSolid()
    ensures !Neutral(';')
  {
  }

  function Concat(groups: seq<seq<string>>): seq<string> {
    if groups == [] then [] else groups[0] + Concat(groups[1..])
  }

  function JoinedAll(groups: seq<seq<string>>): seq<string> {
    seq(|groups|, i requires 0 <= i < |groups| => Joined(groups[i]))
  }

  /** A group of lines ends a statement, and no shorter run of them does. */
  ghost predicate IsChunk(g: seq<string>) {
    g != [] && EndsStatement(Joined(g)) && forall n | 0 < n < |g| :: !EndsStatement(Joined(g[..n]))
  }

  /** No run of lines ends a statement. */
  ghost predicate Pending(rest: seq<string>) {
    forall n | 0 < n <= |rest| :: !EndsStatement(Joined(rest[..n]))
  }

  ghost predicate IsChunking(lines: seq<string>, groups: seq<seq<string>>, rest: seq<string>) {
    lines == Concat(groups) + rest && (forall g | g in groups :: IsChunk(g)) && Pending(rest)
  }

  lemma {:induction false} JoinedGrows(a: seq<string>, line: string)
    ensures Joined(a + [line]) == Joined(a) + line + "\n"
  {
    if a == [] {
      assert [] + [line] == [line] && [line][1..] == [];
      assert "" + line == line;
    } else {
      assert (a + [line])[1..] == a[1..] + [line];
      JoinedGrows(a[1..], line);
    }
  }

  lemma LineRead(g: seq<string>, k: nat)
    requires k < |g|
    ensures Joined(g[..k]) + g[k] + "\n" == Joined(g[..k + 1])
  {
    hide Joined;
    assert g[..k + 1] == g[..k] + [g[k]];
    JoinedGrows(g[..k], g[k]);
  }

  lemma {:induction false} ChunkRead(g: seq<string>, k: nat, tail: seq<string>)
    requires IsChunk(g) && k < |g|
    ensures var (cs, left) := Chunks("", tail);
            Chunks(Joined(g[..k]), g[k..] + tail) == ([Joined(g)] + cs, left)
    decreases |g| - k
  {
    hide Joined, Flushes, EndsStatement;
    var lines := g[k..] + tail;
    assert lines[0] == g[k] && lines[1..] == g[k + 1..] + tail;
    LineRead(g, k);
    FlushesExactly(Joined(g[..k + 1]));
    if k + 1 < |g| {
      ChunkRead(g, k + 1, tail);
    } else {
      assert g[..k + 1] == g && g[k + 1..] + tail == tail;
    }
  }

  lemma {:induction false} RestRead(rest: seq<string>, k: nat)
    requires Pending(rest) && k <= |rest|
    ensures Chunks(Joined(rest[..k]), rest[k..]) == ([], Joined(rest))
    decreases |rest| - k
  {
    hide Joined, Flushes, EndsStatement;
    if k < |rest| {
      assert rest[k..][1..] == rest[k + 1..];
      LineRead(rest, k);
      FlushesExactly(Joined(rest[..k + 1]));
      RestRead(rest, k + 1);
    } else {
      assert rest[..k] == rest;
    }
  }

  /** The chunks are those of the only way to cut the lines so that each group ends a
      statement, and no shorter run of its lines and no run of the rest does. */
  lemma {:induction false} ChunksExactly(lines: seq<string>, groups: seq<seq<string>>, rest: seq<string>)
    requires IsChunking(lines, groups, rest)
    ensures Chunks("", lines) == (JoinedAll(groups), Joined(rest))
    decreases groups
  {
    hide Chunks, IsChunk, Pending, Joined;
    NothingRead();
    if groups == [] {
      assert lines == rest && rest[..0] == [] && rest[0..] == rest;
      RestRead(rest, 0);
    } else {
      var g, tail := groups[0], Concat(groups[1..]) + rest;
      assert lines == g + tail && g[..0] == [] && g[0..] == g;
      ChunkRead(g, 0, tail) by { assert IsChunk(g); ChunkHasLines(g); }
      ChunksExactly(tail, groups[1..], rest);
      assert JoinedAll(groups) == [Joined(g)] + JoinedAll(groups[1..]);
    }
  }

  lemma ChunkHasLines(g: seq<string>)
    requires IsChunk(g)
    ensures g != []
  {
  }

  lemma NothingRead()
    ensures Joined([]) == ""
  {
  }

  /** Any lines can be cut so. */
  lemma ChunkingExists(lines: seq<string>) returns (groups: seq<seq<string>>, rest: seq<string>)
    ensures IsChunking(lines, groups, rest)
  {
    groups, rest := ChunkingFrom(lines, 0);
  }

  lemma {:induction false} ChunkingFrom(lines: seq<string>, k: nat)
      returns (groups: seq<seq<string>>, rest: seq<string>)
    requires k <= |lines| && forall n | 0 < n <= k :: !EndsStatement(Joined(lines[..n]))
    ensures IsChunking(lines, groups, rest)
    decreases |lines|, |lines| - k
  {
    hide EndsStatement, Joined;
    if k == |lines| {
      groups, rest := [], lines;
    } else if EndsStatement(Joined(lines[..k + 1])) {
      var g := lines[..k + 1];
      assert forall n | 0 < n < |g| :: g[..n] == lines[..n];
      groups, rest := ChunkingFrom(lines[k + 1..], 0);
      assert lines == g + lines[k + 1..];
      groups := [g] + groups;
    } else {
      groups, rest := ChunkingFrom(lines, k + 1);
    }
  }
}
