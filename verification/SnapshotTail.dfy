/** The offset-based tail reader of the snapshot log, and the batch loader of the same file. */
module SnapshotTail {
  import opened Common

  /** A validated snapshot assessment. */
  type Assessment(!new)

  /** JSON decoding and validation of one line, for any record format. */
  type Parser = string -> Option<Assessment>

  // ------------------------------------------------------------ the specification

  function One(parse: Parser, line: string): seq<Assessment> {
    match parse(line)
    case None => []
    case Some(a) => [a]
  }

  /** Position of the first newline, or the length of the text. */
  function NewlineAt(text: string): (k: nat)
    ensures k <= |text| && (k < |text| ==> text[k] == '\n')
    ensures forall i :: 0 <= i < k ==> text[i] != '\n'
  {
    if text == [] || text[0] == '\n' then 0 else 1 + NewlineAt(text[1..])
  }

  /** The valid records of the newline-terminated lines of a text, in order. */
  function Records(parse: Parser, text: string): seq<Assessment>
    decreases |text|
  {
    var k := NewlineAt(text);
    if k == |text| then [] else One(parse, text[..k]) + Records(parse, text[k + 1..])
  }

  /** Length of the part of a text that consists of complete lines. */
  function CompleteLength(text: string): (n: nat)
    ensures n <= |text|
    decreases |text|
  {
    var k := NewlineAt(text);
    if k == |text| then 0 else k + 1 + CompleteLength(text[k + 1..])
  }

  ghost predicate Boundary(text: string, n: nat) {
    n <= |text| && (n == 0 || text[n - 1] == '\n')
  }

  /** The first newline of a text is also the first newline of every nonempty boundary prefix. */
  lemma FirstNewlineBefore(text: string, n: nat)
    requires Boundary(text, n) && n > 0
    ensures NewlineAt(text) < n && NewlineAt(text[..n]) == NewlineAt(text)
  {
    var k, j := NewlineAt(text), NewlineAt(text[..n]);
    assert k <= n - 1;
    assert text[..n][n - 1] == '\n' && text[..n][k] == '\n';
  }

  /** Records of complete lines do not depend on where the text is divided between lines. */
  lemma {:induction false} RecordsSplit(parse: Parser, text: string, n: nat)
    requires Boundary(text, n)
    ensures Records(parse, text) == Records(parse, text[..n]) + Records(parse, text[n..])
    decreases |text|
  {
    hide One, NewlineAt, Records;
    if n == 0 {
      RecordsCons(parse, text[..0]);
      assert text[n..] == text;
    } else {
      var k := NewlineAt(text);
      FirstNewlineBefore(text, n);
      var head, rest, m := text[..n], text[k + 1..], n - (k + 1);
      RecordsSplit(parse, rest, m);
      RecordsCons(parse, text);
      RecordsCons(parse, head);
      assert head[..k] == text[..k] && head[k + 1..] == rest[..m] && text[n..] == rest[m..];
    }
  }

  lemma {:induction false} RecordsCons(parse: Parser, text: string)
    ensures var k := NewlineAt(text);
      Records(parse, text) ==
        if k == |text| then [] else One(parse, text[..k]) + Records(parse, text[k + 1..])
  {
    hide One, NewlineAt;
  }

  // ------------------------------------------------------------------ the reader

  class SnapshotWatcher {
    var offset: nat
    var stopped: bool
    const parse: Parser

    constructor (parse: Parser)
      ensures offset == 0 && !stopped && this.parse == parse
    {
      offset, stopped := 0, false;
      this.parse := parse;
    }

    method Stop()
      modifies this`stopped
      ensures stopped
    {
      stopped := true;
    }

    /** `readline` at a position: the position after it. */
    method ReadLine(text: string, start: nat) returns (end: nat)
      requires start <= |text|
      ensures end == if start + NewlineAt(text[start..]) < |text| then start + NewlineAt(text[start..]) + 1 else |text|
    {
      end := start;
      while end < |text| && text[end] != '\n'
        invariant start <= end <= |text|
        invariant NewlineAt(text[start..]) == end - start + NewlineAt(text[end..])
      {
        assert text[end..][1..] == text[end + 1..];
        end := end + 1;
      }
      if end < |text| {
        end := end + 1;
      }
    }

    /** One pass over the file as it is now; a partial last line is left for the next pass. */
    method Poll(text: string) returns (found: seq<Assessment>)
      requires Boundary(text, offset)
      modifies this`offset
      ensures Boundary(text, offset)
      ensures stopped ==> offset == old(offset) && found == []
      ensures !stopped ==> '\n' !in text[offset..]
      ensures Records(parse, text[..offset]) == Records(parse, text[..old(offset)]) + found
    {
      hide Records, NewlineAt;
      found := [];
      while !stopped
        invariant Boundary(text, offset)
        invariant stopped ==> offset == old(offset) && found == []
        invariant Records(parse, text[..offset]) == Records(parse, text[..old(offset)]) + found
        decreases |text| - offset
      {
        var lineStart := offset;
        var end := ReadLine(text, lineStart);
        if end == lineStart {
          break;
        }
        if text[end - 1] != '\n' {
          NoCompleteLine(text, lineStart);
          break;
        }
        OneMoreLine(parse, text, lineStart);
        offset := end;
        match parse(text[lineStart..end - 1])
        case None =>
        case Some(assessment) => found := found + [assessment];
      }
    }
  }

  lemma NoCompleteLine(text: string, start: nat)
    requires start <= |text| && start + NewlineAt(text[start..]) >= |text|
    ensures '\n' !in text[start..]
  {
  }

  /** A single terminated line. */
  lemma LineRecords(parse: Parser, line: string)
    requires line != [] && NewlineAt(line) == |line| - 1
    ensures Records(parse, line) == One(parse, line[..|line| - 1])
  {
    assert line[|line|..] == [] && Records(parse, []) == [];
  }

  lemma OneMoreLine(parse: Parser, text: string, start: nat)
    requires start <= |text| && start + NewlineAt(text[start..]) < |text| && Boundary(text, start)
    ensures var end := start + NewlineAt(text[start..]) + 1;
      && Boundary(text, end)
      && Records(parse, text[..end]) == Records(parse, text[..start]) + One(parse, text[start..end - 1])
  {
    hide One, Records, NewlineAt;
    var k := NewlineAt(text[start..]);
    var end := start + k + 1;
    var line := text[start..end];
    RecordsSplit(parse, text[..end], start);
    assert text[..end][..start] == text[..start] && text[..end][start..] == line;
    FirstNewlineBefore(text[start..], k + 1);
    assert text[start..][..k + 1] == line && line[..k] == text[start..end - 1];
    LineRecords(parse, line);
  }

  // ----------------------------------------------------- any cut, any interleaving

  datatype State = State(text: string, offset: nat, yielded: seq<Assessment>)

  /** The writer appends any text; the reader reads one line. */
  datatype Action = Append(chunk: string) | Read

  function Apply(parse: Parser, s: State, a: Action): State
    requires s.offset <= |s.text|
  {
    match a
    case Append(chunk) => s.(text := s.text + chunk)
    case Read =>
      var k := NewlineAt(s.text[s.offset..]);
      if s.offset + k == |s.text| then s
      else s.(offset := s.offset + k + 1, yielded := s.yielded + One(parse, s.text[s.offset..s.offset + k]))
  }

  /** The state after a sequence of appends and reads. */
  function Run(parse: Parser, actions: seq<Action>): (s: State)
    ensures s.offset <= |s.text|
  {
    if actions == [] then State([], 0, [])
    else Apply(parse, Run(parse, actions[..|actions| - 1]), actions[|actions| - 1])
  }

  /** The file holds what was appended, in order, and nothing else. */
  lemma RunAppends(parse: Parser, actions: seq<Action>, a: Action)
    ensures Run(parse, []).text == []
    ensures Run(parse, actions + [a]).text == Run(parse, actions).text + (if a.Append? then a.chunk else [])
  {
    assert (actions + [a])[..|actions|] == actions;
  }

  /** However the file is cut into appends and reads, the offset is at a line boundary and what was
      yielded is exactly the valid records of the complete lines before it, once each and in order. */
  lemma {:induction false} TailMatchesPrefix(parse: Parser, actions: seq<Action>)
    ensures Faithful(parse, Run(parse, actions))
  {
    hide Apply, Faithful;
    if actions == [] {
      EmptyIsFaithful(parse);
    } else {
      TailMatchesPrefix(parse, actions[..|actions| - 1]);
      StepIsFaithful(parse, Run(parse, actions[..|actions| - 1]), actions[|actions| - 1]);
    }
  }

  ghost predicate Faithful(parse: Parser, s: State) {
    Boundary(s.text, s.offset) && s.yielded == Records(parse, s.text[..s.offset])
  }

  lemma EmptyIsFaithful(parse: Parser)
    ensures Faithful(parse, State([], 0, []))
  {
  }

  lemma StepIsFaithful(parse: Parser, s: State, a: Action)
    requires Faithful(parse, s)
    ensures Faithful(parse, Apply(parse, s, a))
  {
    hide Records, One, NewlineAt;
    match a
    case Append(chunk) =>
      assert (s.text + chunk)[..s.offset] == s.text[..s.offset];
    case Read =>
      if s.offset + NewlineAt(s.text[s.offset..]) < |s.text| {
        OneMoreLine(parse, s.text, s.offset);
      }
  }

  /** The reader has caught up: no complete line is left after its offset. */
  ghost predicate CaughtUp(s: State)
    requires s.offset <= |s.text|
  {
    '\n' !in s.text[s.offset..]
  }

  lemma RemainderIsEmpty(parse: Parser, text: string)
    requires '\n' !in text
    ensures Records(parse, text) == [] && CompleteLength(text) == 0
  {
  }

  /** Once caught up, the records are those of a single read of the whole file. */
  lemma CaughtUpMatchesFile(parse: Parser, actions: seq<Action>)
    requires CaughtUp(Run(parse, actions))
    ensures Run(parse, actions).yielded == Records(parse, Run(parse, actions).text)
  {
    var s := Run(parse, actions);
    TailMatchesPrefix(parse, actions);
    RecordsSplit(parse, s.text, s.offset);
    RemainderIsEmpty(parse, s.text[s.offset..]);
  }

  /** The result does not depend on the cuts. */
  lemma CutsDoNotMatter(parse: Parser, a: seq<Action>, b: seq<Action>)
    requires Run(parse, a).text == Run(parse, b).text && CaughtUp(Run(parse, a)) && CaughtUp(Run(parse, b))
    ensures Run(parse, a).yielded == Run(parse, b).yielded
  {
    CaughtUpMatchesFile(parse, a);
    CaughtUpMatchesFile(parse, b);
  }

  /** Reading makes progress until the reader has caught up. */
  lemma ReadProgress(parse: Parser, actions: seq<Action>)
    ensures var s, t := Run(parse, actions), Run(parse, actions + [Read]);
      t.text == s.text && (if CaughtUp(s) then t == s else t.offset > s.offset)
  {
    assert (actions + [Read])[..|actions|] == actions;
    var s := Run(parse, actions);
    var rest := s.text[s.offset..];
    var k := NewlineAt(rest);
    if k < |rest| {
      assert rest[k] in rest;
    } else {
      assert rest[..k] == rest;
    }
  }

  // ------------------------------------------------------------- the batch loader

  /** `splitlines` with the given separators: a trailing fragment counts as a line. */
  function SeparatorAt(sep: char -> bool, text: string): (k: nat)
    ensures k <= |text| && (k < |text| ==> sep(text[k]))
    ensures forall i :: 0 <= i < k ==> !sep(text[i])
  {
    if text == [] || sep(text[0]) then 0 else 1 + SeparatorAt(sep, text[1..])
  }

  function BatchRecords(parse: Parser, sep: char -> bool, text: string): seq<Assessment>
    decreases |text|
  {
    var k := SeparatorAt(sep, text);
    if text == [] then []
    else if k == |text| then One(parse, text)
    else One(parse, text[..k]) + BatchRecords(parse, sep, text[k + 1..])
  }

  lemma SameFirstSeparator(sep: char -> bool, text: string)
    requires forall c :: c in text ==> (sep(c) <==> c == '\n')
    ensures SeparatorAt(sep, text) == NewlineAt(text)
  {
    assert forall i :: 0 <= i < |text| ==> (sep(text[i]) <==> text[i] == '\n');
  }

  /** The batch loader sees the complete lines plus the unfinished last one: it agrees with the tail
      reader exactly when that fragment is empty or not a valid record. */
  lemma {:induction false} BatchSeesTheFragment(parse: Parser, sep: char -> bool, text: string)
    requires forall c :: c in text ==> (sep(c) <==> c == '\n')
    ensures var fragment := text[CompleteLength(text)..];
      && BatchRecords(parse, sep, text) == Records(parse, text) + (if fragment == [] then [] else One(parse, fragment))
      && (BatchRecords(parse, sep, text) == Records(parse, text) <==> fragment == [] || parse(fragment).None?)
    decreases |text|
  {
    hide NewlineAt, SeparatorAt, Records;
    SameFirstSeparator(sep, text);
    RecordsCons(parse, text);
    var k := NewlineAt(text);
    if k == |text| {
      assert text[0..] == text;
    } else {
      var rest := text[k + 1..];
      BatchSeesTheFragment(parse, sep, rest);
      assert rest[CompleteLength(rest)..] == text[CompleteLength(text)..];
    }
  }

  // -------------------------------------------------------- logs the writer wrote

  type Renderer = Assessment -> string

  /** One JSON object on one line: it holds no newline, parses back, and no proper part of it is a record. */
  ghost predicate WritesRecords(render: Renderer, parse: Parser) {
    forall a :: WritesRecord(render, parse, a)
  }

  ghost predicate WritesRecord(render: Renderer, parse: Parser, a: Assessment) {
    && render(a) != [] && '\n' !in render(a) && parse(render(a)) == Some(a)
    && NoPartParses(parse, render(a))
  }

  ghost predicate NoPartParses(parse: Parser, line: string) {
    forall i, j :: 0 <= i <= j <= |line| && j - i < |line| ==> parse(line[i..j]) == None
  }

  function Log(render: Renderer, rows: seq<Assessment>): string {
    if rows == [] then [] else render(rows[0]) + ['\n'] + Log(render, rows[1..])
  }

  ghost predicate FreeOf(sep: char -> bool, line: string) {
    forall i :: 0 <= i < |line| ==> !sep(line[i])
  }

  /** The rows whose line holds no further separator. */
  ghost function Intact(render: Renderer, sep: char -> bool, rows: seq<Assessment>): seq<Assessment> {
    if rows == [] then []
    else (if FreeOf(sep, render(rows[0])) then [rows[0]] else []) + Intact(render, sep, rows[1..])
  }

  /** The tail reader yields every row the writer appended. */
  lemma {:induction false} TailReadsLog(render: Renderer, parse: Parser, rows: seq<Assessment>)
    requires WritesRecords(render, parse)
    ensures Records(parse, Log(render, rows)) == rows
  {
    hide Records, NewlineAt;
    var text := Log(render, rows);
    RecordsCons(parse, text);
    if rows != [] {
      assert WritesRecord(render, parse, rows[0]);
      var line := render(rows[0]);
      TailReadsLog(render, parse, rows[1..]);
      FirstNewline(line, Log(render, rows[1..]));
      assert text[..|line|] == line && text[|line| + 1..] == Log(render, rows[1..]);
    }
  }

  lemma FirstNewline(line: string, rest: string)
    requires '\n' !in line
    ensures NewlineAt(line + ['\n'] + rest) == |line|
  {
    var text := line + ['\n'] + rest;
    assert text[|line|] == '\n';
    assert forall i :: 0 <= i < |line| ==> text[i] == line[i] && line[i] != '\n';
  }

  lemma {:induction false} BatchCons(parse: Parser, sep: char -> bool, text: string, k: nat)
    requires k < |text| && sep(text[k]) && forall i :: 0 <= i < k ==> !sep(text[i])
    ensures BatchRecords(parse, sep, text) == One(parse, text[..k]) + BatchRecords(parse, sep, text[k + 1..])
  {
    hide One;
    var j := SeparatorAt(sep, text);
    assert j <= k && j < |text|;
  }

  /** What follows a further separator inside a line yields nothing up to the end of the line. */
  lemma {:induction false} FragmentsAreLost(parse: Parser, sep: char -> bool, line: string, i: nat, rest: string)
    requires sep('\n') && 0 < i <= |line| && NoPartParses(parse, line)
    ensures BatchRecords(parse, sep, line[i..] + ['\n'] + rest) == BatchRecords(parse, sep, rest)
    decreases |line| - i
  {
    hide BatchRecords, NoPartParses;
    var text := line[i..] + ['\n'] + rest;
    var k := SeparatorAt(sep, line[i..]);
    FragmentIsNoRecord(parse, line, i, i + k);
    assert forall m :: 0 <= m < |line| - i ==> text[m] == line[i..][m];
    BatchCons(parse, sep, text, k);
    assert text[..k] == line[i..i + k];
    if i + k < |line| {
      FragmentsAreLost(parse, sep, line, i + k + 1, rest);
      assert text[k + 1..] == line[i + k + 1..] + ['\n'] + rest;
    } else {
      assert text[k + 1..] == rest;
    }
  }

  lemma FragmentIsNoRecord(parse: Parser, line: string, i: nat, j: nat)
    requires i <= j <= |line| && j - i < |line| && NoPartParses(parse, line)
    ensures One(parse, line[i..j]) == []
  {
  }

  lemma BatchReadsLine(render: Renderer, parse: Parser, sep: char -> bool, a: Assessment, rest: string)
    requires sep('\n') && WritesRecord(render, parse, a)
    ensures BatchRecords(parse, sep, render(a) + ['\n'] + rest) ==
      (if FreeOf(sep, render(a)) then [a] else []) + BatchRecords(parse, sep, rest)
  {
    hide BatchRecords, NoPartParses;
    var line := render(a);
    var text := line + ['\n'] + rest;
    var k := SeparatorAt(sep, line);
    assert forall m :: 0 <= m < |line| ==> text[m] == line[m];
    BatchCons(parse, sep, text, k);
    assert text[..k] == line[..k];
    if k < |line| {
      FragmentIsNoRecord(parse, line, 0, k);
      FragmentsAreLost(parse, sep, line, k + 1, rest);
      assert text[k + 1..] == line[k + 1..] + ['\n'] + rest;
    } else {
      assert line[..k] == line && text[k + 1..] == rest;
    }
  }

  /** The batch loader returns exactly the rows whose line holds none of its further separators. */
  lemma {:induction false} BatchReadsIntactRows(
    render: Renderer, parse: Parser, sep: char -> bool, rows: seq<Assessment>)
    requires sep('\n') && WritesRecords(render, parse)
    ensures BatchRecords(parse, sep, Log(render, rows)) == Intact(render, sep, rows)
  {
    hide FreeOf;
    if rows != [] {
      assert WritesRecord(render, parse, rows[0]);
      BatchReadsIntactRows(render, parse, sep, rows[1..]);
      BatchReadsLine(render, parse, sep, rows[0], Log(render, rows[1..]));
    }
  }

  lemma {:induction false} IntactSize(render: Renderer, sep: char -> bool, rows: seq<Assessment>)
    ensures |Intact(render, sep, rows)| <= |rows|
    ensures Intact(render, sep, rows) == rows <==> forall a :: a in rows ==> FreeOf(sep, render(a))
    ensures |Intact(render, sep, rows)| == |rows| <==> forall a :: a in rows ==> FreeOf(sep, render(a))
  {
    hide FreeOf;
    if rows != [] {
      IntactSize(render, sep, rows[1..]);
      assert rows == [rows[0]] + rows[1..];
    }
  }

  /** On every log the writer produced, the tail reader yields all rows, and the batch loader agrees with
      it if and only if no row holds a further line separator; otherwise it returns strictly fewer. */
  lemma ReadersAgreeExactly(render: Renderer, parse: Parser, sep: char -> bool, rows: seq<Assessment>)
    requires sep('\n') && WritesRecords(render, parse)
    ensures var log := Log(render, rows);
      && Records(parse, log) == rows
      && (BatchRecords(parse, sep, log) == Records(parse, log) <==> forall a :: a in rows ==> FreeOf(sep, render(a)))
      && (|BatchRecords(parse, sep, log)| < |rows| <==> !forall a :: a in rows ==> FreeOf(sep, render(a)))
  {
    hide Records, BatchRecords, Log, Intact, FreeOf;
    TailReadsLog(render, parse, rows);
    BatchReadsIntactRows(render, parse, sep, rows);
    IntactSize(render, sep, rows);
  }
}
