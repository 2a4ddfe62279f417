/** The SQL shell (cmd/localitas/sql.go): piped lines are split and run chunk by
    chunk, each chunk flushed when a ';' ends what was read so far. */
module Shell {
  import opened Text
  import opened Splitter
  import SplitterTheorems
  import opened SplitterNormalForm

  /** Running one statement: the database behind it and whether it succeeded. */
  datatype Result<S> = Result(state: S, ok: bool)

  type Exec<!S> = (S, string) -> Result<S>

  /** Statements run in order; the first failure stops the run. */
  function RunAll<S>(exec: Exec<S>, st: S, stmts: seq<string>): Result<S>
    decreases stmts
  {
    if stmts == [] then Result(st, true)
    else
      var r := exec(st, stmts[0]);
      if r.ok then RunAll(exec, r.state, stmts[1..]) else r
  }

  method RunStatements<S>(exec: Exec<S>, st: S, raw: string) returns (r: Result<S>)
    ensures r == RunAll(exec, st, Statements(raw))
  {
    var stmts := SplitSQL(raw);
    r := Result(st, true);
    var i := 0;
    while i < |stmts|
      invariant 0 <= i <= |stmts| && r.ok
      invariant RunAll(exec, r.state, stmts[i..]) == RunAll(exec, st, stmts)
    {
      r := exec(r.state, stmts[i]);
      if !r.ok {
        return;
      }
      i := i + 1;
    }
  }

  /** The shell flushes when the text read so far, trimmed, ends with a semicolon. */
  predicate Flushes(text: string) {
    var t := TrimSpace(text);
    t != "" && t[|t| - 1] == ';'
  }

  /** The chunks the shell flushes, starting with buf already read, and then
      what it still holds at the end of input. */
  function Chunks(buf: string, lines: seq<string>): (r: (seq<string>, string))
    decreases lines
  {
    if lines == [] then ([], buf)
    else
      var text := buf + lines[0] + "\n";
      if Flushes(text) then var (cs, left) := Chunks("", lines[1..]); ([text] + cs, left)
      else Chunks(text, lines[1..])
  }

  function Joined(lines: seq<string>): string {
    if lines == [] then "" else lines[0] + "\n" + Joined(lines[1..])
  }

  /** The statements of each chunk, one chunk after the other. */
  function Streamed(chunks: seq<string>): seq<string> {
    if chunks == [] then [] else Statements(chunks[0]) + Streamed(chunks[1..])
  }

  lemma {:induction false} RunAllConcat<S>(exec: Exec<S>, st: S, a: seq<string>, b: seq<string>)
    ensures var r := RunAll(exec, st, a);
            RunAll(exec, st, a + b) == if r.ok then RunAll(exec, r.state, b) else r
    decreases a
  {
    if a == [] {
      assert a + b == b;
    } else {
      assert (a + b)[1..] == a[1..] + b;
      RunAllConcat(exec, exec(st, a[0]).state, a[1..], b);
    }
  }

  /** The shell from buf on. Piped, the first failure ends it; at a prompt it
      goes on with the next chunk. readError is the scanner's error behind the
      lines: then what is not flushed yet is not run. */
  function ShellFrom<S>(exec: Exec<S>, st: S, buf: string, lines: seq<string>, readError: bool,
                        interactive: bool): Result<S>
    decreases lines
  {
    if lines == [] then
      if readError then Result(st, false) else RunAll(exec, st, Statements(buf))
    else
      var text := buf + lines[0] + "\n";
      if !Flushes(text) then ShellFrom(exec, st, text, lines[1..], readError, interactive)
      else
        var f := RunAll(exec, st, Statements(text));
        if !f.ok && !interactive then f
        else ShellFrom(exec, f.state, "", lines[1..], readError, interactive)
  }

  method RunSQLShell<S>(exec: Exec<S>, st: S, lines: seq<string>, readError: bool, interactive: bool)
      returns (r: Result<S>)
    ensures r == ShellFrom(exec, st, "", lines, readError, interactive)
  {
    var state := st;
    var buf := "";
    var i := 0;
    assert lines[0..] == lines;
    while i < |lines|
      invariant 0 <= i <= |lines|
      invariant ShellFrom(exec, state, buf, lines[i..], readError, interactive)
             == ShellFrom(exec, st, "", lines, readError, interactive)
    {
      hide Statements, TrimSpace, RunAll;
      assert lines[i..][1..] == lines[i + 1..];
      buf := buf + lines[i];
      buf := buf + "\n";
      if Flushes(buf) {
        var f := RunStatements(exec, state, buf);
        buf := "";
        if !f.ok && !interactive {
          return f;
        }
        state := f.state;
      }
      i := i + 1;
    }
    if readError {
      return Result(state, false);
    }
    if TrimSpace(buf) != "" {
      r := RunStatements(exec, state, buf);
    } else {
      BlankHasNoStatements(buf);
      r := Result(state, true);
    }
  }

  /** Piped, the shell runs the chunks' statements, then what it still holds. */
  lemma {:induction false} PipedShellRunsChunks<S>(exec: Exec<S>, st: S, buf: string, lines: seq<string>,
      readError: bool)
    ensures var (chunks, left) := Chunks(buf, lines);
            var f := RunAll(exec, st, Streamed(chunks));
            ShellFrom(exec, st, buf, lines, readError, false)
            == if !f.ok then f
               else if readError then Result(f.state, false)
               else RunAll(exec, f.state, Statements(left))
    decreases lines
  {
    hide Statements, TrimSpace, Flushes;
    if lines != [] {
      var text := buf + lines[0] + "\n";
      if Flushes(text) {
        var f := RunAll(exec, st, Statements(text));
        var (cs, left) := Chunks("", lines[1..]);
        PipedShellRunsChunks(exec, f.state, "", lines[1..], readError);
        RunAllConcat(exec, st, Statements(text), Streamed(cs));
        assert ([text] + cs)[1..] == cs;
      } else {
        PipedShellRunsChunks(exec, st, text, lines[1..], readError);
      }
    }
  }

  /** Each chunk from the state the last one left, failed or not. */
  function EachChunk<S>(exec: Exec<S>, st: S, chunks: seq<string>): S
    decreases chunks
  {
    if chunks == [] then st else EachChunk(exec, RunAll(exec, st, Statements(chunks[0])).state, chunks[1..])
  }

  /** At a prompt, a failed statement ends its own chunk and no other. */
  lemma {:induction false} PromptedShellGoesOn<S>(exec: Exec<S>, st: S, buf: string, lines: seq<string>,
      readError: bool)
    ensures var (chunks, left) := Chunks(buf, lines);
            var end := EachChunk(exec, st, chunks);
            ShellFrom(exec, st, buf, lines, readError, true)
            == if readError then Result(end, false) else RunAll(exec, end, Statements(left))
    decreases lines
  {
    hide Statements, TrimSpace, Flushes, RunAll;
    if lines != [] {
      var text := buf + lines[0] + "\n";
      if Flushes(text) {
        var (cs, left) := Chunks("", lines[1..]);
        PromptedShellGoesOn(exec, RunAll(exec, st, Statements(text)).state, "", lines[1..], readError);
        assert ([text] + cs)[1..] == cs;
      } else {
        PromptedShellGoesOn(exec, st, text, lines[1..], readError);
      }
    }
  }

  // ----- The input behind the chunks -----

  /** The chunks and what is left, end to end. */
  function Whole(chunks: seq<string>, left: string): string {
    if chunks == [] then left else chunks[0] + Whole(chunks[1..], left)
  }

  /** Chunking loses no byte of the input. */
  lemma {:induction false} ChunksAreTheInput(buf: string, lines: seq<string>)
    ensures var (chunks, left) := Chunks(buf, lines); Whole(chunks, left) == buf + Joined(lines)
    decreases lines
  {
    hide Flushes;
    if lines == [] {
      assert buf + "" == buf;
    } else {
      var text := buf + lines[0] + "\n";
      assert text + Joined(lines[1..]) == buf + Joined(lines);
      if Flushes(text) {
        ChunksAreTheInput("", lines[1..]);
        var (cs, left) := Chunks("", lines[1..]);
        assert ([text] + cs)[1..] == cs;
        assert "" + Joined(lines[1..]) == Joined(lines[1..]);
      } else {
        ChunksAreTheInput(text, lines[1..]);
      }
    }
  }

  /** White space alone holds no statement. */
  lemma BlankHasNoStatements(s: string)
    requires TrimSpace(s) == ""
    ensures Statements(s) == []
  {
    hide Lex, TrimSpace, Neutral, Segments, Blank;
    var w1, w2 := TrimShape(s);
    BlankIsNeutral(s);
    LexOfNeutral(s);
    PlainKeepsDepth(0, Lex(s));
    NoCutOneSegment(0, Lex(s));
    RenderIsSource(Lex(s));
    SplitterTheorems.LexIsLossless(s);
    FinishOne(Lex(s));
  }
}
