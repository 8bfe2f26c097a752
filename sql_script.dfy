/**
 * `setupDatabase` of `database/setup.js`: a SQL file is cut into statements
 * by splitting on `;`, trimming each piece and dropping the pieces that are
 * empty or start with `--`; the statements are then sent one by one, and a
 * failing statement is only logged (as "already there" or as an error) before
 * the next one is sent. The schema file is run first, then the data file.
 *
 * The contents of the two files and the replies of the server are
 * parameters; a missing file is `None`.
 */
module SqlScript {
  import opened Common

  // ---------------------------------------------------------------------------
  // String.prototype.split(';')

  /** The pieces of `text` between semicolons, as JavaScript's `split(';')` returns them. */
  function Split(text: string): (r: seq<string>)
    ensures |r| >= 1
    ensures forall p :: p in r ==> ';' !in p
    decreases |text|
  {
    if text == [] then [[]]
    else
      var rest := Split(text[1..]);
      if text[0] == ';' then [[]] + rest
      else [[text[0]] + rest[0]] + rest[1..]
  }

  /** The inverse of `Split`: the pieces glued back with `;`. */
  function Join(pieces: seq<string>): string
    requires |pieces| >= 1
    decreases |pieces|
  {
    if |pieces| == 1 then pieces[0] else pieces[0] + [';'] + Join(pieces[1..])
  }

  /** Gluing the pieces back gives the text that was split. */
  lemma {:induction false} JoinSplit(text: string)
    ensures Join(Split(text)) == text
    decreases |text|
  {
    if text != [] {
      JoinSplit(text[1..]);
      var rest := Split(text[1..]);
      if text[0] != ';' {
        assert [text[0]] + text[1..] == text;
        if |rest| > 1 {
          assert rest == [rest[0]] + rest[1..];
          assert ([[text[0]] + rest[0]] + rest[1..])[1..] == rest[1..];
        }
      } else {
        assert ([[]] + rest)[1..] == rest;
        assert [text[0]] + text[1..] == text;
      }
    }
  }

  /** A piece without `;` stays one piece. */
  lemma {:induction false} SplitPlain(a: string)
    requires ';' !in a
    ensures Split(a) == [a]
    decreases |a|
  {
    if a != [] {
      SplitPlain(a[1..]);
      assert [a[0]] + a[1..] == a;
    }
  }

  /** A piece without `;` followed by `;` becomes the first piece. */
  lemma {:induction false} SplitAfterPiece(a: string, rest: string)
    requires ';' !in a
    ensures Split(a + [';'] + rest) == [a] + Split(rest)
    decreases |a|
  {
    if a == [] {
      assert a + [';'] + rest == [';'] + rest;
      assert ([';'] + rest)[1..] == rest;
    } else {
      SplitAfterPiece(a[1..], rest);
      var t := a + [';'] + rest;
      assert t[0] == a[0];
      assert t[1..] == a[1..] + [';'] + rest;
      assert [a[0]] + a[1..] == a;
    }
  }

  /** Splitting glued pieces gives the pieces back, when none of them holds a `;`. */
  lemma {:induction false} SplitJoin(pieces: seq<string>)
    requires |pieces| >= 1
    requires forall p :: p in pieces ==> ';' !in p
    ensures Split(Join(pieces)) == pieces
    decreases |pieces|
  {
    if |pieces| == 1 {
      SplitPlain(pieces[0]);
    } else {
      assert pieces[0] in pieces;
      assert forall p :: p in pieces[1..] ==> p in pieces;
      SplitJoin(pieces[1..]);
      SplitAfterPiece(pieces[0], Join(pieces[1..]));
      assert pieces == [pieces[0]] + pieces[1..];
    }
  }

  lemma {:induction false} JoinAppend(xs: seq<string>, ys: seq<string>)
    requires |xs| >= 1 && |ys| >= 1
    ensures Join(xs + ys) == Join(xs) + [';'] + Join(ys)
    decreases |xs|
  {
    if |xs| == 1 {
      assert (xs + ys)[1..] == ys;
    } else {
      JoinAppend(xs[1..], ys);
      assert (xs + ys)[1..] == xs[1..] + ys;
    }
  }

  /** Splitting at one `;` and then splitting both halves is the same as splitting the whole. */
  lemma SplitAppend(a: string, b: string)
    ensures Split(a + [';'] + b) == Split(a) + Split(b)
  {
    var ps := Split(a) + Split(b);
    JoinAppend(Split(a), Split(b));
    JoinSplit(a);
    JoinSplit(b);
    SplitJoin(ps);
  }

  // ---------------------------------------------------------------------------
  // String.prototype.trim()

  /** The characters JavaScript's `trim` removes: WhiteSpace and LineTerminator. */
  predicate IsSpace(c: char) {
    || c == '\t' || c == '\U{000B}' || c == '\U{000C}' || c == ' ' || c == '\U{00A0}' || c == '\U{FEFF}'
    || c == '\U{1680}' || ('\U{2000}' <= c <= '\U{200A}') || c == '\U{202F}' || c == '\U{205F}' || c == '\U{3000}'
    || c == '\n' || c == '\r' || c == '\U{2028}' || c == '\U{2029}'
  }

  /** `s` without its leading white space. */
  function TrimStart(s: string): string
    decreases |s|
  {
    if s != [] && IsSpace(s[0]) then TrimStart(s[1..]) else s
  }

  /** `s` without its trailing white space. */
  function TrimEnd(s: string): string
    decreases |s|
  {
    if s != [] && IsSpace(s[|s| - 1]) then TrimEnd(s[..|s| - 1]) else s
  }

  /** `TrimStart` cuts off the longest all-white-space prefix. */
  lemma {:induction false} TrimStartCuts(s: string)
    ensures |TrimStart(s)| <= |s| && TrimStart(s) == s[|s| - |TrimStart(s)|..]
    ensures forall k :: 0 <= k < |s| - |TrimStart(s)| ==> IsSpace(s[k])
    ensures TrimStart(s) == [] || !IsSpace(TrimStart(s)[0])
    decreases |s|
  {
    if s != [] && IsSpace(s[0]) {
      TrimStartCuts(s[1..]);
    }
  }

  /** `TrimEnd` cuts off the longest all-white-space suffix. */
  lemma {:induction false} TrimEndCuts(s: string)
    ensures |TrimEnd(s)| <= |s| && TrimEnd(s) == s[..|TrimEnd(s)|]
    ensures forall k :: |TrimEnd(s)| <= k < |s| ==> IsSpace(s[k])
    ensures TrimEnd(s) == [] || !IsSpace(TrimEnd(s)[|TrimEnd(s)| - 1])
    decreases |s|
  {
    if s != [] && IsSpace(s[|s| - 1]) {
      TrimEndCuts(s[..|s| - 1]);
    }
  }

  function Trim(s: string): string {
    TrimEnd(TrimStart(s))
  }

  /** A string with no white space at either end. */
  predicate Trimmed(s: string) {
    s == [] || (!IsSpace(s[0]) && !IsSpace(s[|s| - 1]))
  }

  /** How many characters `Trim` cuts off the front of `s`. */
  function Lead(s: string): int {
    |s| - |TrimStart(s)|
  }

  /**
   * `Trim` removes exactly the white space at both ends: its result is a
   * slice of `s`, has no white space at either end, and everything cut off
   * is white space.
   */
  lemma TrimSlice(s: string)
    ensures 0 <= Lead(s) && Lead(s) + |Trim(s)| <= |s| && Trim(s) == s[Lead(s)..Lead(s) + |Trim(s)|]
    ensures forall k :: 0 <= k < Lead(s) ==> IsSpace(s[k])
    ensures forall k :: Lead(s) + |Trim(s)| <= k < |s| ==> IsSpace(s[k])
    ensures Trimmed(Trim(s))
  {
    var t := TrimStart(s);
    var r := TrimEnd(t);
    TrimStartCuts(s);
    TrimEndCuts(t);
    var i := |s| - |t|;
    var j := i + |r|;
    assert r == s[i..j];
    assert forall k :: j <= k < |s| ==> s[k] == t[k - i];
    if r != [] {
      assert r[0] == t[0];
    }
  }

  /** A string already trimmed is left alone. */
  lemma TrimTrimmed(s: string)
    requires Trimmed(s)
    ensures Trim(s) == s
  {
  }

  /** Trimming twice is trimming once. */
  lemma TrimIdempotent(s: string)
    ensures Trim(Trim(s)) == Trim(s)
  {
    TrimSlice(s);
    TrimTrimmed(Trim(s));
  }

  /** Trimming cannot introduce a character. */
  lemma TrimSubset(s: string, c: char)
    requires c !in s
    ensures c !in Trim(s)
  {
    TrimSlice(s);
    assert forall k :: 0 <= k < |Trim(s)| ==> Trim(s)[k] == s[Lead(s) + k];
  }

  // ---------------------------------------------------------------------------
  // The statement pipeline: split(';').map(trim).filter(...)

  predicate StartsWith(s: string, prefix: string) {
    |prefix| <= |s| && s[..|prefix|] == prefix
  }

  /** The filter: non-empty and not starting with `--`. */
  predicate Keep(stmt: string) {
    |stmt| > 0 && !StartsWith(stmt, "--")
  }

  /** What one piece contributes: its trimmed text, unless the filter drops it. */
  function Kept(piece: string): (r: seq<string>)
    ensures |r| <= 1
  {
    var t := Trim(piece);
    if Keep(t) then [t] else []
  }

  /** `pieces.map(trim).filter(Keep)`. */
  function Clean(pieces: seq<string>): (r: seq<string>)
    ensures |r| <= |pieces|
    decreases |pieces|
  {
    if pieces == [] then [] else Kept(pieces[0]) + Clean(pieces[1..])
  }

  /** The statements `setup.js` sends for a file with contents `text`. */
  function Statements(text: string): seq<string> {
    Clean(Split(text))
  }

  /** The statements are exactly the trimmed pieces that pass the filter. */
  lemma {:induction false} CleanMembers(pieces: seq<string>)
    ensures forall s :: s in Clean(pieces) <==> Keep(s) && exists p :: p in pieces && Trim(p) == s
    decreases |pieces|
  {
    if pieces != [] {
      CleanMembers(pieces[1..]);
      assert pieces == [pieces[0]] + pieces[1..];
      forall s | Keep(s) && (exists p :: p in pieces && Trim(p) == s)
        ensures s in Clean(pieces)
      {
        var p :| p in pieces && Trim(p) == s;
        if p != pieces[0] {
          assert p in pieces[1..];
        }
      }
    }
  }

  /** Cleaning keeps the order of the pieces: it distributes over concatenation. */
  lemma {:induction false} CleanAppend(xs: seq<string>, ys: seq<string>)
    ensures Clean(xs + ys) == Clean(xs) + Clean(ys)
    decreases |xs|
  {
    if xs != [] {
      CleanAppend(xs[1..], ys);
      assert (xs + ys)[0] == xs[0];
      assert (xs + ys)[1..] == xs[1..] + ys;
      assert Clean(xs + ys) == Kept(xs[0]) + Clean(xs[1..] + ys);
      assert Clean(xs) == Kept(xs[0]) + Clean(xs[1..]);
      assert Kept(xs[0]) + (Clean(xs[1..]) + Clean(ys)) == (Kept(xs[0]) + Clean(xs[1..])) + Clean(ys);
    } else {
      assert xs + ys == ys;
    }
  }

  /** Every statement is non-empty, trimmed, free of `;` and not a `--` chunk. */
  predicate WellFormed(stmt: string) {
    Keep(stmt) && Trimmed(stmt) && ';' !in stmt
  }

  lemma {:induction false} CleanWellFormed(pieces: seq<string>)
    requires forall p :: p in pieces ==> ';' !in p
    ensures forall s :: s in Clean(pieces) ==> WellFormed(s)
    decreases |pieces|
  {
    if pieces != [] {
      assert pieces[0] in pieces;
      assert forall p :: p in pieces[1..] ==> p in pieces;
      CleanWellFormed(pieces[1..]);
      TrimSlice(pieces[0]);
      TrimSubset(pieces[0], ';');
    }
  }

  /** The properties of every emitted statement. */
  lemma StatementsWellFormed(text: string)
    ensures forall s :: s in Statements(text) ==> WellFormed(s)
  {
    CleanWellFormed(Split(text));
  }

  /**
   * The statements of a file are the trimmed `;`-separated pieces that pass
   * the filter, and no others.
   */
  lemma StatementsMembers(text: string)
    ensures forall s :: s in Statements(text) <==> Keep(s) && exists p :: p in Split(text) && Trim(p) == s
  {
    CleanMembers(Split(text));
  }

  /** Statements keep their source order: the part before a `;` gives the first statements. */
  lemma StatementsAppend(a: string, b: string)
    ensures Statements(a + [';'] + b) == Statements(a) + Statements(b)
  {
    SplitAppend(a, b);
    CleanAppend(Split(a), Split(b));
  }

  /** There are never more statements than `;`-separated pieces. */
  lemma StatementsBound(text: string)
    ensures |Statements(text)| <= |Split(text)|
  {
  }

  /** Leading white space does not change what `trimStart` leaves. */
  lemma {:induction false} TrimStartSkipsSpaces(ws: string, s: string)
    requires forall k :: 0 <= k < |ws| ==> IsSpace(ws[k])
    ensures TrimStart(ws + s) == TrimStart(s)
    decreases |ws|
  {
    if ws != [] {
      assert (ws + s)[0] == ws[0];
      assert (ws + s)[1..] == ws[1..] + s;
      TrimStartSkipsSpaces(ws[1..], s);
    } else {
      assert ws + s == s;
    }
  }

  /**
   * A chunk whose first non-blank text is a `--` comment is dropped whole,
   * including the SQL that follows the comment line in the same chunk. Every
   * chunk after a `;` starts with the rest of that line, so `ws` is usually
   * a line break.
   */
  lemma CommentChunkDropped(ws: string, comment: string, sql: string)
    requires forall k :: 0 <= k < |ws| ==> IsSpace(ws[k])
    requires ';' !in comment && ';' !in sql
    ensures Statements(ws + "--" + comment + "\n" + sql) == []
  {
    var body := "--" + comment + "\n" + sql;
    var chunk := ws + body;
    assert ws + "--" + comment + "\n" + sql == chunk;
    assert ';' !in body by {
      forall k | 0 <= k < |body|
        ensures body[k] != ';'
      {
        if k < 2 {
        } else if k < 2 + |comment| {
          assert body[k] == comment[k - 2];
        } else if k == 2 + |comment| {
        } else {
          assert body[k] == sql[k - 3 - |comment|];
        }
      }
    }
    assert ';' !in chunk by {
      forall k | 0 <= k < |chunk|
        ensures chunk[k] != ';'
      {
        if k < |ws| {
          assert chunk[k] == ws[k] && IsSpace(ws[k]);
        } else {
          assert chunk[k] == body[k - |ws|];
        }
      }
    }
    SplitPlain(chunk);
    TrimStartSkipsSpaces(ws, body);
    assert !IsSpace(body[0]);
    assert TrimStart(body) == body;
    TrimSlice(body);
    var r := TrimEnd(body);
    assert |r| >= 2 by {
      assert !IsSpace(body[1]);
    }
    assert r[..2] == "--";
    assert Trim(chunk) == r;
    assert Clean([chunk]) == Clean([chunk][1..]);
  }

  /** Splitting ignores quoting: a `;` inside a string literal ends the statement. */
  lemma QuotedSemicolonSplits()
    ensures Statements("'a;b'") == ["'a", "b'"]
  {
    var a, b := "'a", "b'";
    assert "'a;b'" == a + [';'] + b;
    assert a[..2] != "--" && b[..2] != "--";
    SemicolonAlwaysSplits(a, b);
  }

  /** Any `;` ends a statement, whatever surrounds it. */
  lemma SemicolonAlwaysSplits(a: string, b: string)
    requires ';' !in a && Trimmed(a) && Keep(a)
    requires ';' !in b && Trimmed(b) && Keep(b)
    ensures Statements(a + [';'] + b) == [a, b]
  {
    StatementsAppend(a, b);
    StatementsOfOne(a);
    StatementsOfOne(b);
  }

  /** A trimmed chunk without `;` that passes the filter is one statement. */
  lemma StatementsOfOne(a: string)
    requires ';' !in a && Trimmed(a) && Keep(a)
    ensures Statements(a) == [a]
  {
    SplitPlain(a);
    TrimTrimmed(a);
    assert Clean([a]) == Kept(a) + Clean([]);
  }

  /** The guard `if (statement.trim())` in the loops never skips a statement. */
  lemma GuardAlwaysHolds(text: string)
    ensures forall s :: s in Statements(text) ==> Trim(s) != []
  {
    StatementsWellFormed(text);
    forall s | s in Statements(text)
      ensures Trim(s) != []
    {
      TrimTrimmed(s);
    }
  }

  // ---------------------------------------------------------------------------
  // Error classification

  /** `s.includes(part)`. */
  predicate Contains(s: string, part: string)
    decreases |s|
  {
    StartsWith(s, part) || (s != [] && Contains(s[1..], part))
  }

  /** `part` occurs in `s` starting at position `i`. */
  predicate OccursAt(s: string, part: string, i: int) {
    0 <= i <= |s| - |part| && s[i..i + |part|] == part
  }

  /** `Contains` holds iff `part` occurs at some position of `s`. */
  lemma {:induction false} ContainsAt(s: string, part: string)
    ensures Contains(s, part) <==> exists i :: OccursAt(s, part, i)
    decreases |s|
  {
    if StartsWith(s, part) {
      assert s[0..|part|] == s[..|part|];
      assert OccursAt(s, part, 0);
    }
    if s != [] {
      ContainsAt(s[1..], part);
      if Contains(s[1..], part) {
        var i :| OccursAt(s[1..], part, i);
        assert s[i + 1..i + 1 + |part|] == s[1..][i..i + |part|];
        assert OccursAt(s, part, i + 1);
      }
      if exists i :: OccursAt(s, part, i) {
        var i :| OccursAt(s, part, i);
        if i > 0 {
          assert s[1..][i - 1..i - 1 + |part|] == s[i..i + |part|];
          assert OccursAt(s[1..], part, i - 1);
        } else {
          assert StartsWith(s, part);
        }
      }
    } else {
      if exists i :: OccursAt(s, part, i) {
        var i :| OccursAt(s, part, i);
        assert StartsWith(s, part);
      }
    }
  }

  datatype Phase = Schema | Data

  /** What the catch block makes of an error message. */
  datatype Outcome = AlreadyThere | Error

  function Classify(phase: Phase, message: string): (r: Outcome) {
    if Contains(message, "already exists") || (phase == Data && Contains(message, "duplicate"))
    then AlreadyThere else Error
  }

  /** Whatever the schema phase skips the data phase skips too. */
  lemma DataSkipsMore(message: string)
    ensures Classify(Schema, message) == AlreadyThere ==> Classify(Data, message) == AlreadyThere
  {
  }

  /**
   * A unique-key error, whose message says "duplicate" and not "already
   * exists", is skipped while loading data but reported while creating the
   * schema.
   */
  lemma DuplicateKeySkippedOnlyInData(m: string)
    requires Contains(m, "duplicate") && !Contains(m, "already exists")
    ensures Classify(Schema, m) == Error
    ensures Classify(Data, m) == AlreadyThere
  {
  }

  /**
   * The message PostgreSQL gives for a second user with a stored email,
   * written in pieces so that each piece's letters can be checked on its own.
   */
  const EmailTakenMessage: string :=
    "duplicate key value " + "violates unique " + "constraint \"users_email_key\""

  /** That message is reported in the schema phase and skipped in the data phase. */
  lemma EmailTakenSkippedOnlyInData()
    ensures Classify(Schema, EmailTakenMessage) == Error
    ensures Classify(Data, EmailTakenMessage) == AlreadyThere
  {
    var m := EmailTakenMessage;
    assert StartsWith(m, "duplicate") by {
      assert m[..9] == "duplicate";
    }
    assert 'x' !in m by {
      assert 'x' !in "duplicate key value ";
      assert 'x' !in "violates unique ";
      assert 'x' !in "constraint \"users_email_key\"";
    }
    assert "already exists"[9] == 'x';
    MissingCharNotContained(m, "already exists", 9);
    DuplicateKeySkippedOnlyInData(m);
  }

  /** A string that lacks some character of `part` does not contain `part`. */
  lemma MissingCharNotContained(s: string, part: string, j: nat)
    requires j < |part| && part[j] !in s
    ensures !Contains(s, part)
  {
    ContainsAt(s, part);
  }

  // ---------------------------------------------------------------------------
  // Execution

  /** A console line of the script, by kind. */
  datatype Line =
    | Started
    | PhaseStarted(phase: Phase)
    | Executed(phase: Phase)
    | Skipped(phase: Phase)
    | Failed(phase: Phase, message: string)
    | Completed
    | SetupFailed

  /** The line printed for one statement, given the server's reply (`None` for success). */
  function LineFor(phase: Phase, reply: Option<string>): (r: Line)
    ensures (r.Executed? || r.Skipped? || r.Failed?) && r.phase == phase
    ensures reply.None? <==> r.Executed?
    ensures r.Skipped? <==> reply.Some? && Classify(phase, reply.value) == AlreadyThere
    ensures r.Failed? ==> r.message == reply.value
  {
    match reply
    case None => Executed(phase)
    case Some(m) => if Classify(phase, m) == AlreadyThere then Skipped(phase) else Failed(phase, m)
  }

  /** The lines printed for a run of statements. */
  function LinesFor(phase: Phase, replies: seq<Option<string>>): (r: seq<Line>)
    ensures |r| == |replies|
    ensures forall i :: 0 <= i < |replies| ==> r[i] == LineFor(phase, replies[i])
    decreases |replies|
  {
    if replies == [] then [] else LinesFor(phase, replies[..|replies| - 1]) + [LineFor(phase, replies[|replies| - 1])]
  }

  /** The number of error lines among `lines`. */
  function FailedCount(lines: seq<Line>): (r: nat)
    ensures r <= |lines|
    decreases |lines|
  {
    if lines == [] then 0
    else FailedCount(lines[..|lines| - 1]) + (if lines[|lines| - 1].Failed? then 1 else 0)
  }

  /**
   * A run prints an error line exactly for the replies the catch block
   * classifies as errors; every other statement prints executed or skipped.
   */
  lemma FailedExactlyForErrors(phase: Phase, replies: seq<Option<string>>)
    ensures forall i :: 0 <= i < |replies| ==>
      (LinesFor(phase, replies)[i].Failed? <==> replies[i].Some? && Classify(phase, replies[i].value) == Error)
  {
  }

  /**
   * An "already exists" error never prints an error line, in either phase;
   * in the data phase neither does a "duplicate" error.
   */
  lemma {:induction false} AlreadyExistsNeverFails(phase: Phase, replies: seq<Option<string>>, i: nat)
    requires i < |replies| && replies[i].Some?
    requires Contains(replies[i].value, "already exists") || (phase == Data && Contains(replies[i].value, "duplicate"))
    ensures LinesFor(phase, replies)[i].Skipped?
  {
  }

  /** For the same replies, the data phase never prints more error lines than the schema phase. */
  lemma {:induction false} DataPhaseFailsNoMore(replies: seq<Option<string>>)
    ensures FailedCount(LinesFor(Data, replies)) <= FailedCount(LinesFor(Schema, replies))
    decreases |replies|
  {
    if replies != [] {
      var n := |replies| - 1;
      DataPhaseFailsNoMore(replies[..n]);
      assert LinesFor(Data, replies)[..n] == LinesFor(Data, replies[..n]);
      assert LinesFor(Schema, replies)[..n] == LinesFor(Schema, replies[..n]);
      if replies[n].Some? {
        DataSkipsMore(replies[n].value);
      }
    }
  }

  /** The client side of the setup: what it has sent and what it has printed. */
  class Runner {
    var sent: seq<string>
    var log: seq<Line>

    constructor ()
      ensures sent == [] && log == []
    {
      sent := [];
      log := [];
    }

    /**
     * The loop over the statements of one file: every statement is sent, in
     * order, whatever the replies to the earlier ones; `replies[i]` is the
     * server's answer to `stmts[i]`.
     */
    method RunPhase(phase: Phase, stmts: seq<string>, replies: seq<Option<string>>)
      requires |replies| == |stmts|
      requires forall s :: s in stmts ==> Trim(s) != []
      modifies this
      ensures sent == old(sent) + stmts
      ensures log == old(log) + LinesFor(phase, replies)
    {
      var i := 0;
      while i < |stmts|
        invariant 0 <= i <= |stmts|
        invariant sent == old(sent) + stmts[..i]
        invariant log == old(log) + LinesFor(phase, replies[..i])
      {
        var stmt := stmts[i];
        if Trim(stmt) != [] {
          sent := sent + [stmt];
          log := log + [LineFor(phase, replies[i])];
        }
        assert stmts[..i + 1] == stmts[..i] + [stmt];
        assert replies[..i + 1][..i] == replies[..i];
        i := i + 1;
      }
      assert stmts[..i] == stmts;
      assert replies[..i] == replies;
    }

    /**
     * The whole script: read and run the schema file, then the data file.
     * A file that cannot be read ends the run in the outer catch.
     */
    method SetupDatabase(schemaFile: Option<string>, dataFile: Option<string>,
                         schemaReplies: seq<Option<string>>, dataReplies: seq<Option<string>>)
      requires schemaFile.Some? ==> |schemaReplies| == |Statements(schemaFile.value)|
      requires dataFile.Some? ==> |dataReplies| == |Statements(dataFile.value)|
      modifies this
      ensures schemaFile.None? ==>
        sent == old(sent) && log == old(log) + [Started, PhaseStarted(Schema), SetupFailed]
      ensures schemaFile.Some? && dataFile.None? ==>
        && sent == old(sent) + Statements(schemaFile.value)
        && log == old(log) + [Started, PhaseStarted(Schema)] + LinesFor(Schema, schemaReplies)
                 + [PhaseStarted(Data), SetupFailed]
      ensures schemaFile.Some? && dataFile.Some? ==>
        && sent == old(sent) + Statements(schemaFile.value) + Statements(dataFile.value)
        && log == old(log) + [Started, PhaseStarted(Schema)] + LinesFor(Schema, schemaReplies)
                 + [PhaseStarted(Data)] + LinesFor(Data, dataReplies) + [Completed]
    {
      log := log + [Started, PhaseStarted(Schema)];
      if schemaFile.None? {
        log := log + [SetupFailed];
        return;
      }
      var schemaStatements := Statements(schemaFile.value);
      GuardAlwaysHolds(schemaFile.value);
      RunPhase(Schema, schemaStatements, schemaReplies);
      log := log + [PhaseStarted(Data)];
      if dataFile.None? {
        log := log + [SetupFailed];
        return;
      }
      var dataStatements := Statements(dataFile.value);
      GuardAlwaysHolds(dataFile.value);
      RunPhase(Data, dataStatements, dataReplies);
      log := log + [Completed];
    }
  }
}
