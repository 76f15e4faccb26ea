/** The command loop: a bounded line editor and commands that take their argument on the
    next line. */
module Shell {
  import opened Bytes
  import opened Strings
  import opened VdSpec
  import opened VdFs

  const BUFFER_SIZE := 100
  const LINE_SIZE := 99
  const NEWLINE: byte := 0x0A

  const HELLO: seq<byte> := [0x68, 0x65, 0x6C, 0x6C, 0x6F]
  const HELP: seq<byte> := [0x68, 0x65, 0x6C, 0x70]
  const ECHO: seq<byte> := [0x65, 0x63, 0x68, 0x6F]
  const READ: seq<byte> := [0x72, 0x65, 0x61, 0x64]

  /** What the loop prints: the character typed, the overflow message, the argument or
      the file contents asked for, the fixed messages, the complaint, the prompt. */
  datatype Event =
    | Typed(c: byte)
    | Overflow
    | Argument(line: seq<byte>)
    | Contents(text: seq<byte>)
    | Greeting
    | Commands
    | AskArgument
    | Unrecognized(line: seq<byte>)
    | Prompt

  // ---------- the reference: line by line ----------

  /** How far the line goes. */
  function LineEnd(text: seq<byte>): (n: nat)
    ensures n <= |text| && NEWLINE !in text[..n]
    ensures n < |text| ==> text[n] == NEWLINE
  {
    if text == [] || text[0] == NEWLINE then 0
    else
      var n := 1 + LineEnd(text[1..]);
      assert text[..n] == [text[0]] + text[1..][..n - 1];
      n
  }

  /** The line handled: the first 99 characters typed. */
  function Line(typed: seq<byte>): seq<byte> {
    if |typed| <= LINE_SIZE then typed else typed[..LINE_SIZE]
  }

  function EditEvents(typed: seq<byte>): seq<Event> {
    seq(|typed|, i requires 0 <= i < |typed| => if i < LINE_SIZE then Typed(typed[i]) else Overflow)
  }

  predicate TakesArgument(line: seq<byte>) {
    line == ECHO || line == READ
  }

  /** What a line prints: the previous line decides whether it is an argument, and it is
      a command all the same. */
  function LineEvents(files: State, previous: seq<byte>, line: seq<byte>): seq<Event>
    requires Readable(files)
  {
    ArgumentEvents(files, previous, line) + CommandEvents(line) + if TakesArgument(line) then [] else [Prompt]
  }

  /** A line after "echo" is echoed, a line after "read" is the name of a file. */
  function ArgumentEvents(files: State, previous: seq<byte>, line: seq<byte>): seq<Event>
    requires Readable(files)
  {
    if previous == ECHO then [Argument(line)]
    else if previous == READ then [Contents(FileText(files, line))]
    else []
  }

  function CommandEvents(line: seq<byte>): seq<Event> {
    if line == HELLO then [Greeting]
    else if line == HELP then [Commands]
    else if TakesArgument(line) then [AskArgument]
    else [Unrecognized(line)]
  }

  /** Every name leads to a sector that holds a string. */
  ghost predicate Readable(files: State) {
    ValidTable(files.entries) && forall name :: HasString(DataSector(files, name))
  }

  function FileText(files: State, name: seq<byte>): seq<byte>
    requires Readable(files)
  {
    CString(DataSector(files, name))
  }

  /** Everything printed for an input stream. */
  function Transcript(files: State, previous: seq<byte>, text: seq<byte>): seq<Event>
    requires Readable(files)
    decreases |text|
  {
    var n := LineEnd(text);
    var line := Line(text[..n]);
    EditEvents(text[..n])
    + if n == |text| then [] else LineEvents(files, previous, line) + Transcript(files, line, text[n + 1..])
  }

  /** The last whole line of the stream, or the one before it. */
  function LastLine(previous: seq<byte>, text: seq<byte>): seq<byte>
    decreases |text|
  {
    var n := LineEnd(text);
    if n == |text| then previous else LastLine(Line(text[..n]), text[n + 1..])
  }

  /** What has been typed since the last newline. */
  function Pending(text: seq<byte>): seq<byte>
    decreases |text|
  {
    var n := LineEnd(text);
    if n == |text| then text else Pending(text[n + 1..])
  }

  /** What one more character prints. */
  function Response(files: State, previous: seq<byte>, pending: seq<byte>, c: byte): seq<Event>
    requires Readable(files)
  {
    if c == NEWLINE then LineEvents(files, previous, Line(pending))
    else [if |pending| < LINE_SIZE then Typed(c) else Overflow]
  }

  lemma {:induction false} LineEndAppend(text: seq<byte>, c: byte)
    ensures LineEnd(text + [c]) == if LineEnd(text) == |text| && c != NEWLINE then |text| + 1 else LineEnd(text)
    decreases |text|
  {
    if text != [] && text[0] != NEWLINE {
      assert (text + [c])[1..] == text[1..] + [c];
      LineEndAppend(text[1..], c);
    }
  }

  lemma {:induction false} TranscriptAppends(files: State, previous: seq<byte>, text: seq<byte>, c: byte)
    requires Readable(files)
    ensures Transcript(files, previous, text + [c])
         == Transcript(files, previous, text) + Response(files, LastLine(previous, text), Pending(text), c)
    ensures LastLine(previous, text + [c]) == if c == NEWLINE then Line(Pending(text)) else LastLine(previous, text)
    ensures Pending(text + [c]) == if c == NEWLINE then [] else Pending(text) + [c]
    decreases |text|
  {
    hide Readable, Transcript, LastLine, Pending, LineEvents, EditEvents, Line, Response;
    var n := LineEnd(text);
    if n < |text| {
      var line, rest := Line(text[..n]), text[n + 1..];
      TranscriptAppends(files, line, rest, c);
      LineEndAppend(text, c);
      SlicesAppend(text, c, n);
      TranscriptStep(files, previous, text);
      TranscriptStep(files, previous, text + [c]);
      Regroup(EditEvents(text[..n]), LineEvents(files, previous, line), Transcript(files, line, rest),
              Response(files, LastLine(line, rest), Pending(rest), c));
    } else {
      LastLineAppends(files, previous, text, c);
    }
  }

  lemma SlicesAppend(text: seq<byte>, c: byte, n: nat)
    requires n < |text|
    ensures (text + [c])[..n] == text[..n] && (text + [c])[n + 1..] == text[n + 1..] + [c]
  {
  }

  lemma {:induction false} TranscriptStep(files: State, previous: seq<byte>, text: seq<byte>)
    requires Readable(files) && LineEnd(text) < |text|
    ensures var n := LineEnd(text);
      var line := Line(text[..n]);
      && Transcript(files, previous, text)
         == EditEvents(text[..n]) + (LineEvents(files, previous, line) + Transcript(files, line, text[n + 1..]))
      && LastLine(previous, text) == LastLine(line, text[n + 1..])
      && Pending(text) == Pending(text[n + 1..])
  {
  }

  lemma Regroup(a: seq<Event>, b: seq<Event>, c: seq<Event>, d: seq<Event>)
    ensures a + (b + (c + d)) == a + (b + c) + d
  {
  }

  /** The case of a stream without a newline so far. */
  lemma {:induction false} LastLineAppends(files: State, previous: seq<byte>, text: seq<byte>, c: byte)
    requires Readable(files) && LineEnd(text) == |text|
    ensures Transcript(files, previous, text + [c])
         == Transcript(files, previous, text) + Response(files, previous, text, c)
    ensures LastLine(previous, text) == previous && Pending(text) == text
    ensures LastLine(previous, text + [c]) == if c == NEWLINE then Line(text) else previous
    ensures Pending(text + [c]) == if c == NEWLINE then [] else text + [c]
  {
    hide *;
    WholeStream(files, previous, text);
    LineEndAppend(text, c);
    if c == NEWLINE {
      OneWholeLine(files, previous, text);
      ResponseIs(files, previous, text, c);
    } else {
      WholeStream(files, previous, text + [c]);
      OneMoreTyped(text, c);
      ResponseIs(files, previous, text, c);
    }
  }

  /** A stream without a newline is only edited. */
  lemma {:induction false} WholeStream(files: State, previous: seq<byte>, text: seq<byte>)
    requires Readable(files) && LineEnd(text) == |text|
    ensures Transcript(files, previous, text) == EditEvents(text)
    ensures LastLine(previous, text) == previous && Pending(text) == text
  {
    assert text[..|text|] == text && EditEvents(text) + [] == EditEvents(text);
    hide EditEvents, Readable, LineEvents;
  }

  lemma {:induction false} OneWholeLine(files: State, previous: seq<byte>, text: seq<byte>)
    requires Readable(files) && LineEnd(text) == |text| && LineEnd(text + [NEWLINE]) == |text|
    ensures Transcript(files, previous, text + [NEWLINE]) == EditEvents(text) + LineEvents(files, previous, Line(text))
    ensures LastLine(previous, text + [NEWLINE]) == Line(text) && Pending(text + [NEWLINE]) == []
  {
    var all := text + [NEWLINE];
    assert all[..|text|] == text && all[|text| + 1..] == [];
    hide EditEvents, Readable, LineEvents;
    TranscriptStep(files, previous, all);
    WholeStream(files, Line(text), []);
    NothingEdited();
    assert LineEvents(files, previous, Line(text)) + [] == LineEvents(files, previous, Line(text));
  }

  lemma NothingEdited()
    ensures EditEvents([]) == [] && LineEnd([]) == 0
  {
  }

  lemma OneMoreTyped(text: seq<byte>, c: byte)
    ensures EditEvents(text + [c]) == EditEvents(text) + [if |text| < LINE_SIZE then Event.Typed(c) else Overflow]
  {
  }

  lemma ResponseIs(files: State, previous: seq<byte>, pending: seq<byte>, c: byte)
    requires Readable(files)
    ensures Response(files, previous, pending, c) ==
      if c == NEWLINE then LineEvents(files, previous, Line(pending))
      else [if |pending| < LINE_SIZE then Event.Typed(c) else Overflow]
  {
  }

  // ---------- what becomes of every line ----------

  /** Lines as they are typed, each ended by a newline. */
  function Lines(lines: seq<seq<byte>>): seq<byte> {
    if lines == [] then [] else lines[0] + [10] + Lines(lines[1..])
  }

  /** The lines echoed and the files shown. */
  function Answers(events: seq<Event>): seq<Event> {
    if events == [] then []
    else (if IsAnswer(events[0]) then [events[0]] else []) + Answers(events[1..])
  }

  predicate IsAnswer(e: Event) {
    e.Argument? || e.Contents?
  }

  /** Line by line: a line is echoed exactly when the line before it was "echo", and the
      file it names is shown exactly when the line before it was "read". */
  function Asked(files: State, previous: seq<byte>, lines: seq<seq<byte>>): seq<Event>
    requires Readable(files)
    decreases |lines|
  {
    if lines == [] then []
    else
      (if previous == ECHO then [Argument(Line(lines[0]))]
       else if previous == READ then [Contents(FileText(files, Line(lines[0])))]
       else [])
      + Asked(files, Line(lines[0]), lines[1..])
  }

  lemma {:induction false} AnswersJoin(a: seq<Event>, b: seq<Event>)
    ensures Answers(a + b) == Answers(a) + Answers(b)
  {
    hide IsAnswer;
    if a == [] {
      assert a + b == b && [] + Answers(b) == Answers(b);
    } else {
      AnswersJoin(a[1..], b);
      assert (a + b)[1..] == a[1..] + b && (a + b)[0] == a[0];
      var first := if IsAnswer(a[0]) then [a[0]] else [];
      assert first + (Answers(a[1..]) + Answers(b)) == first + Answers(a[1..]) + Answers(b);
    }
  }

  lemma {:induction false} EditingAnswersNothing(events: seq<Event>)
    requires forall i :: 0 <= i < |events| ==> events[i].Typed? || events[i].Overflow?
    ensures Answers(events) == []
  {
    if events != [] {
      EditingAnswersNothing(events[1..]);
    }
  }

  lemma LineAnswers(files: State, previous: seq<byte>, line: seq<byte>)
    requires Readable(files)
    ensures Answers(LineEvents(files, previous, line)) == ArgumentEvents(files, previous, line)
  {
    var a, c := ArgumentEvents(files, previous, line), CommandEvents(line);
    var p := if TakesArgument(line) then [] else [Prompt];
    AnswersJoin(a + c, p);
    AnswersJoin(a, c);
    OneAnswer(a);
    OneAnswer(c);
    OneAnswer(p);
    hide FileText, Readable, Answers;
  }

  lemma {:induction false} OneAnswer(events: seq<Event>)
    requires |events| <= 1
    ensures Answers(events) == if events != [] && IsAnswer(events[0]) then events else []
  {
    if events != [] {
      assert events[1..] == [] && [events[0]] == events;
    }
  }

  lemma {:induction false} LineEndIs(line: seq<byte>, more: seq<byte>)
    requires NEWLINE !in line
    ensures LineEnd(line) == |line| && LineEnd(line + [NEWLINE] + more) == |line|
  {
    var text := line + [NEWLINE] + more;
    var n := LineEnd(text);
    assert n > |line| ==> text[|line|] in text[..n];
  }

  lemma {:induction false} LinesAreAnswered(files: State, previous: seq<byte>, lines: seq<seq<byte>>, rest: seq<byte>)
    requires Readable(files) && NEWLINE !in rest
    requires forall i :: 0 <= i < |lines| ==> NEWLINE !in lines[i]
    ensures Answers(Transcript(files, previous, Lines(lines) + rest)) == Asked(files, previous, lines)
    decreases |lines|
  {
    hide *;
    if lines == [] {
      LineEndIs(rest, []);
      NoLines(rest);
      WholeStream(files, previous, rest);
      EditingIsEdited(rest);
      EditingAnswersNothing(EditEvents(rest));
      AskedStep(files, previous, lines);
    } else {
      var typed, more := lines[0], Lines(lines[1..]) + rest;
      var text, line := Lines(lines) + rest, Line(typed);
      LineEndIs(typed, more);
      LinesStep(lines);
      OneLine(typed, Lines(lines[1..]), rest);
      LinesAreAnswered(files, line, lines[1..], rest);
      TranscriptStep(files, previous, text);
      EditingIsEdited(typed);
      EditingAnswersNothing(EditEvents(typed));
      LineAnswers(files, previous, line);
      AnswersJoin(EditEvents(typed), LineEvents(files, previous, line) + Transcript(files, line, more));
      AnswersJoin(LineEvents(files, previous, line), Transcript(files, line, more));
      AskedStep(files, previous, lines);
      NothingBefore(Answers(LineEvents(files, previous, line) + Transcript(files, line, more)));
    }
  }

  lemma NoLines(rest: seq<byte>)
    ensures Lines([]) + rest == rest
  {
  }

  lemma NothingBefore(events: seq<Event>)
    ensures [] + events == events
  {
  }

  lemma {:induction false} LinesStep(lines: seq<seq<byte>>)
    requires lines != []
    ensures Lines(lines) == lines[0] + [NEWLINE] + Lines(lines[1..])
  {
  }

  lemma EditingIsEdited(typed: seq<byte>)
    ensures forall i :: 0 <= i < |EditEvents(typed)| ==> EditEvents(typed)[i].Typed? || EditEvents(typed)[i].Overflow?
  {
  }

  lemma {:induction false} AskedStep(files: State, previous: seq<byte>, lines: seq<seq<byte>>)
    requires Readable(files)
    ensures Asked(files, previous, lines) ==
      if lines == [] then []
      else ArgumentEvents(files, previous, Line(lines[0])) + Asked(files, Line(lines[0]), lines[1..])
  {
    hide Readable, FileText;
  }

  lemma OneLine(typed: seq<byte>, middle: seq<byte>, rest: seq<byte>)
    ensures var text := typed + [NEWLINE] + middle + rest;
      && text == typed + [NEWLINE] + (middle + rest)
      && |typed| < |text| && text[..|typed|] == typed && text[|typed| + 1..] == middle + rest
  {
  }

  // ---------- everything that is printed, from the bytes typed ----------

  /** The bytes of a word. */
  predicate Says(line: seq<byte>, s: string) {
    |line| == |s| && forall i :: 0 <= i < |line| ==> line[i] == s[i] as int
  }

  /** The first 99 bytes typed count. */
  function First99(typed: seq<byte>): seq<byte> {
    if |typed| > 99 then typed[..99] else typed
  }

  function LineBefore(previous: seq<byte>, lines: seq<seq<byte>>, i: nat): seq<byte>
    requires i < |lines|
  {
    if i == 0 then previous else First99(lines[i - 1])
  }

  /** While a line is typed, each of its first 99 bytes is shown and each further one is
      complained about. */
  ghost predicate IsEditing(typed: seq<byte>, events: seq<Event>) {
    && |events| == |typed|
    && forall k :: 0 <= k < |typed| ==> events[k] == if k < 99 then Event.Typed(typed[k]) else Overflow
  }

  /** What a line is answered, by its bytes and those of the line before: the greeting exactly
      for "hello", the list of commands exactly for "help", the request for an argument
      exactly for "echo" and "read", the complaint exactly for everything else; in front of
      it the line itself after "echo" and the file of that name after "read"; behind it the
      prompt, exactly when no argument is asked for. */
  ghost predicate Answered(files: State, previous: seq<byte>, line: seq<byte>, events: seq<Event>)
    requires Readable(files)
  {
    var asks := Says(line, "echo") || Says(line, "read");
    var given := if Says(previous, "echo") || Says(previous, "read") then 1 else 0;
    && |events| == given + 1 + (if asks then 0 else 1)
    && (Says(previous, "echo") ==> events[0] == Argument(line))
    && (Says(previous, "read") ==> events[0] == Contents(FileText(files, line)))
    && (Says(line, "hello") <==> events[given] == Greeting)
    && (Says(line, "help") <==> events[given] == Commands)
    && (asks <==> events[given] == AskArgument)
    && (!Says(line, "hello") && !Says(line, "help") && !asks <==> events[given] == Unrecognized(line))
    && (!asks ==> events[given + 1] == Prompt)
  }

  function Joined(parts: seq<(seq<Event>, seq<Event>)>): seq<Event> {
    if parts == [] then [] else parts[0].0 + parts[0].1 + Joined(parts[1..])
  }

  lemma CommandWords()
    ensures forall line: seq<byte> :: Says(line, "hello") <==> line == HELLO
    ensures forall line: seq<byte> :: Says(line, "help") <==> line == HELP
    ensures forall line: seq<byte> :: Says(line, "echo") <==> line == ECHO
    ensures forall line: seq<byte> :: Says(line, "read") <==> line == READ
  {
    WordIs(HELLO, "hello");
    WordIs(HELP, "help");
    WordIs(ECHO, "echo");
    WordIs(READ, "read");
  }

  lemma WordIs(word: seq<byte>, s: string)
    requires Says(word, s)
    ensures forall line: seq<byte> :: Says(line, s) <==> line == word
  {
  }

  lemma LineIsAnswered(files: State, previous: seq<byte>, line: seq<byte>)
    requires Readable(files)
    ensures Answered(files, previous, line, LineEvents(files, previous, line))
  {
    CommandWords();
    CommandStrings();
    hide Says, FileText, Readable, HasString, CString;
  }

  /** Over any stream of lines: what is printed is, line by line, the editing of the line and
      then its answer. */
  lemma {:induction false} TranscriptIsAnswers(
    files: State, previous: seq<byte>, lines: seq<seq<byte>>, rest: seq<byte>)
    returns (parts: seq<(seq<Event>, seq<Event>)>, last: seq<Event>)
    requires Readable(files) && 10 !in rest
    requires forall i :: 0 <= i < |lines| ==> 10 !in lines[i]
    ensures Transcript(files, previous, Lines(lines) + rest) == Joined(parts) + last
    ensures |parts| == |lines| && IsEditing(rest, last)
    ensures forall i :: 0 <= i < |lines| ==> IsEditing(lines[i], parts[i].0)
    ensures forall i :: 0 <= i < |lines| ==>
      Answered(files, LineBefore(previous, lines, i), First99(lines[i]), parts[i].1)
    decreases |lines|
  {
    hide *;
    if lines == [] {
      parts, last := [], EditEvents(rest);
      NewlineIs10();
      LineEndIs(rest, []);
      NoLines(rest);
      WholeStream(files, previous, rest);
      EditingIs(rest);
      NothingJoined(last);
    } else {
      var typed, more := lines[0], Lines(lines[1..]) + rest;
      var line := Line(typed);
      var later: seq<(seq<Event>, seq<Event>)>;
      later, last := TranscriptIsAnswers(files, line, lines[1..], rest);
      NewlineIs10();
      LineEndIs(typed, more);
      LinesStep(lines);
      OneLine(typed, Lines(lines[1..]), rest);
      TranscriptStep(files, previous, Lines(lines) + rest);
      EditingIs(typed);
      LineIs99(typed);
      LineIsAnswered(files, previous, line);
      var first := (EditEvents(typed), LineEvents(files, previous, line));
      parts := [first] + later;
      JoinedStep(first, later, last);
      PartsFollow(files, previous, lines, first, later);
    }
  }

  lemma NewlineIs10()
    ensures NEWLINE == 10
  {
  }

  lemma NothingJoined(last: seq<Event>)
    ensures Joined([]) + last == last
  {
  }

  lemma EditingIs(typed: seq<byte>)
    ensures IsEditing(typed, EditEvents(typed))
  {
  }

  lemma LineIs99(typed: seq<byte>)
    ensures Line(typed) == First99(typed)
  {
  }

  lemma {:induction false} JoinedStep(
      first: (seq<Event>, seq<Event>), later: seq<(seq<Event>, seq<Event>)>, last: seq<Event>)
    ensures Joined([first] + later) + last == first.0 + (first.1 + (Joined(later) + last))
  {
    assert ([first] + later)[1..] == later;
    hide Joined;
  }

  lemma PartsFollow(
    files: State, previous: seq<byte>, lines: seq<seq<byte>>,
    first: (seq<Event>, seq<Event>), later: seq<(seq<Event>, seq<Event>)>)
    requires Readable(files) && lines != [] && |later| == |lines| - 1
    requires IsEditing(lines[0], first.0) && Answered(files, previous, First99(lines[0]), first.1)
    requires forall i :: 0 <= i < |lines| - 1 ==> IsEditing(lines[1..][i], later[i].0)
    requires forall i :: 0 <= i < |lines| - 1 ==>
      Answered(files, LineBefore(First99(lines[0]), lines[1..], i), First99(lines[1..][i]), later[i].1)
    ensures var parts := [first] + later;
      && (forall i :: 0 <= i < |lines| ==> IsEditing(lines[i], parts[i].0))
      && forall i :: 0 <= i < |lines| ==>
           Answered(files, LineBefore(previous, lines, i), First99(lines[i]), parts[i].1)
  {
    hide Readable, IsEditing, Answered, First99;
    var parts := [first] + later;
    forall i | 0 <= i < |lines|
      ensures IsEditing(lines[i], parts[i].0)
      ensures Answered(files, LineBefore(previous, lines, i), First99(lines[i]), parts[i].1)
    {
      if i > 0 {
        var m := i - 1;
        assert lines[1..][m] == lines[i] && parts[i] == later[m];
        assert LineBefore(First99(lines[0]), lines[1..], m) == LineBefore(previous, lines, i);
        assert Answered(files, LineBefore(First99(lines[0]), lines[1..], m), First99(lines[1..][m]), later[m].1);
      }
    }
  }

  // ---------- the loop ----------

  class Loop {
    const buffer: array<byte>
    const argument: array<byte>
    const fileText: array<byte>
    const fs: FileSystem
    var index: nat
    var isArg: bool
    var argPassed: bool
    var cmdEcho: bool
    var cmdRead: bool
    var events: seq<Event>

    ghost var log: seq<byte>
    ghost var files: State

    /** The buffers are as large as the source declares them, and apart. */
    ghost predicate Allocated() {
      && buffer.Length == BUFFER_SIZE && argument.Length == BUFFER_SIZE && fileText.Length == 512
      && buffer != argument && buffer != fileText && argument != fileText
    }

    ghost predicate Valid()
      reads this, buffer, fs, fs.ide, fs.entries
    {
      && Allocated() && FilesStay(fs, files) && Readable(files)
      && Tracks(files, log, events, index, buffer[..], isArg, cmdEcho, cmdRead)
    }

    constructor (fs: FileSystem)
      requires fs.Valid() && Readable(fs.Abstract())
      ensures Valid() && log == [] && files == fs.Abstract() && this.fs == fs
      ensures fresh(buffer) && fresh(argument) && fresh(fileText)
    {
      this.fs := fs;
      buffer := new byte[BUFFER_SIZE];
      argument := new byte[BUFFER_SIZE];
      fileText := new byte[512];
      index, isArg, argPassed, cmdEcho, cmdRead, events := 0, false, false, false, false, [];
      log, files := [], fs.Abstract();
      new;
      assert Transcript(files, [], []) == [];
    }

    /** One turn of the loop, with the character the keyboard gave. */
    method HandleChar(c: byte)
      requires Valid() && c > 0
      modifies this, buffer, argument, fileText, fs.ide
      ensures Valid() && files == old(files) && log == old(log) + [c]
    {
      ValidMeans();
      ghost var previous, pending, before := LastLine([], log), Pending(log), events;
      TracksMeans(files, log, events, index, buffer[..], isArg, cmdEcho, cmdRead);
      CharacterTyped(pending, c);
      hide *;
      if c == NEWLINE {
        EndLine(previous, Line(pending));
      } else {
        TypeChar(pending, c);
      }
      log := log + [c];
      OneMoreTracked(files, old(log), c, before, events, index, buffer[..], isArg, cmdEcho, cmdRead);
      ValidMeans();
    }

    lemma ValidMeans()
      ensures Valid() <==>
        && Allocated() && FilesStay(fs, files) && Readable(files)
        && Tracks(files, log, events, index, buffer[..], isArg, cmdEcho, cmdRead)
    {
    }

    /** The other branch: the character goes to the buffer while there is room. */
    method TypeChar(ghost pending: seq<byte>, c: byte)
      requires buffer.Length == BUFFER_SIZE && Holds(index, buffer[..], Line(pending))
      modifies `index, `events, buffer
      ensures Holds(index, buffer[..], Line(pending + [c]))
      ensures events == old(events) + [if |pending| < LINE_SIZE then Event.Typed(c) else Overflow]
    {
      CharacterTyped(pending, c);
      hide Line;
      if index < BUFFER_SIZE - 1 {
        buffer[index] := c;
        index := index + 1;
        events := events + [Event.Typed(c)];
      } else {
        events := events + [Overflow];
      }
    }

    /** The newline branch: an argument goes to the command that asked for it, and then
        the line is looked up among the commands. */
    method EndLine(ghost previous: seq<byte>, ghost line: seq<byte>)
      requires Allocated() && FilesStay(fs, files) && Readable(files)
      requires |line| <= LINE_SIZE && 0 !in line && Holds(index, buffer[..], line)
      requires Awaits(isArg, cmdEcho, cmdRead, previous)
      modifies `index, `isArg, `argPassed, `cmdEcho, `cmdRead, `events, buffer, argument, fileText, fs.ide
      ensures FilesStay(fs, files) && index == 0 && events == old(events) + LineEvents(files, previous, line)
      ensures Awaits(isArg, cmdEcho, cmdRead, line)
    {
      hide FilesStay, Readable, LineEvents;
      buffer[index] := 0;
      CopiedString(line, buffer[..]);
      hide CString, HasString, Awaits;
      LineEventsAre(files, previous, line);
      ghost var before := events;
      GiveArgument(previous, line);
      LookUp(line);
      index := 0;
      AwaitsArgument(isArg, cmdEcho, cmdRead, line);
      if !isArg {
        events := events + [Prompt];
      }
      JoinEvents(before, ArgumentEvents(files, previous, line), CommandEvents(line),
                 if TakesArgument(line) then [] else [Prompt]);
      hide ArgumentEvents, CommandEvents;
    }

    /** The three ifs on the flags. */
    method GiveArgument(ghost previous: seq<byte>, ghost line: seq<byte>)
      requires Allocated() && FilesStay(fs, files) && Readable(files)
      requires HasString(buffer[..]) && CString(buffer[..]) == line && |line| <= LINE_SIZE
      requires Awaits(isArg, cmdEcho, cmdRead, previous)
      modifies `isArg, `argPassed, `cmdEcho, `cmdRead, `events, argument, fileText, fs.ide
      ensures FilesStay(fs, files) && !isArg && !cmdEcho && !cmdRead
      ensures events == old(events) + ArgumentEvents(files, previous, line)
    {
      hide Readable, FilesStay, CString, HasString, FileText;
      if isArg {
        var _ := StrCpy(argument, buffer[..]);
        CopiedString(line, argument[..]);
        isArg := false;
        argPassed := true;
      }
      if cmdEcho {
        events := events + [Argument(CString(argument[..]))];
        cmdEcho := false;
      }
      if cmdRead {
        ShowFile(line);
        cmdRead := false;
      }
    }

    /** Reads the file whose name is in the argument buffer and prints its contents. */
    method ShowFile(ghost name: seq<byte>)
      requires Allocated() && FilesStay(fs, files) && Readable(files)
      requires HasString(argument[..]) && CString(argument[..]) == name
      modifies `events, fileText, fs.ide
      ensures FilesStay(fs, files) && events == old(events) + [Contents(FileText(files, name))]
    {
      FileIsReadable(files, name);
      StayMeans(fs, files);
      hide *;
      fs.VdReadData(argument[..], fileText);
      StayMeans(fs, files);
      TextCopied(files, name, old(fileText[..]), fileText[..]);
      events := events + [Contents(CString(fileText[..]))];
    }

    /** The chain of comparisons. */
    method LookUp(ghost line: seq<byte>)
      requires HasString(buffer[..]) && CString(buffer[..]) == line
      requires !isArg && !cmdEcho && !cmdRead
      modifies `isArg, `cmdEcho, `cmdRead, `events
      ensures Awaits(isArg, cmdEcho, cmdRead, line)
      ensures events == old(events) + CommandEvents(line)
    {
      CommandStrings();
      hide CString, HasString;
      var isHello := StrCmp(buffer[..], HELLO + [0]);
      var isHelp := StrCmp(buffer[..], HELP + [0]);
      var isEcho := StrCmp(buffer[..], ECHO + [0]);
      var isRead := StrCmp(buffer[..], READ + [0]);
      if isHello == 0 {
        events := events + [Greeting];
      } else if isHelp == 0 {
        events := events + [Commands];
      } else if isEcho == 0 {
        events := events + [AskArgument];
        isArg := true;
        cmdEcho := true;
      } else if isRead == 0 {
        events := events + [AskArgument];
        isArg := true;
        cmdRead := true;
      } else {
        if !cmdEcho || !cmdRead {
          events := events + [Unrecognized(CString(buffer[..]))];
        }
      }
    }
  }

  /** The file system is as it was when the loop started. */
  ghost predicate FilesStay(fs: FileSystem, files: State)
    reads fs, fs.ide, fs.entries
  {
    fs.Valid() && fs.Abstract() == files
  }

  /** The buffer starts with the line so far. */
  ghost predicate Holds(index: nat, buffer: seq<byte>, line: seq<byte>) {
    |buffer| == BUFFER_SIZE && index == |line| <= LINE_SIZE && buffer[..index] == line
  }

  /** The state of the loop after the characters in log. */
  ghost predicate Tracks(
    files: State, log: seq<byte>, events: seq<Event>, index: nat, buffer: seq<byte>, isArg: bool, cmdEcho: bool,
      cmdRead: bool)
    requires Readable(files)
  {
    && events == Transcript(files, [], log)
    && Holds(index, buffer, Line(Pending(log))) && 0 !in Pending(log)
    && Awaits(isArg, cmdEcho, cmdRead, LastLine([], log))
  }

  lemma {:induction false} TracksMeans(
    files: State, log: seq<byte>, events: seq<Event>, index: nat, buffer: seq<byte>, isArg: bool, cmdEcho: bool,
      cmdRead: bool)
    requires Readable(files) && Tracks(files, log, events, index, buffer, isArg, cmdEcho, cmdRead)
    ensures events == Transcript(files, [], log)
    ensures Holds(index, buffer, Line(Pending(log))) && 0 !in Pending(log)
    ensures Awaits(isArg, cmdEcho, cmdRead, LastLine([], log))
  {
  }

  /** The flags say which command, if any, the previous line was that takes an argument;
      never two at once. */
  ghost predicate Awaits(isArg: bool, cmdEcho: bool, cmdRead: bool, previous: seq<byte>) {
    && isArg == (cmdEcho || cmdRead) && !(cmdEcho && cmdRead)
    && cmdEcho == (previous == ECHO) && cmdRead == (previous == READ)
  }

  lemma AwaitsArgument(isArg: bool, cmdEcho: bool, cmdRead: bool, previous: seq<byte>)
    requires Awaits(isArg, cmdEcho, cmdRead, previous)
    ensures isArg <==> TakesArgument(previous)
  {
  }

  /** One more character on a line. */
  lemma CharacterTyped(pending: seq<byte>, c: byte)
    ensures |Line(pending)| <= LINE_SIZE
    ensures 0 !in pending ==> 0 !in Line(pending)
    ensures |pending| < LINE_SIZE ==> Line(pending) == pending && Line(pending + [c]) == Line(pending) + [c]
    ensures |pending| >= LINE_SIZE ==> |Line(pending)| == LINE_SIZE && Line(pending + [c]) == Line(pending)
  {
    if |pending| >= LINE_SIZE {
      assert (pending + [c])[..LINE_SIZE] == pending[..LINE_SIZE];
    }
  }

  lemma LineEventsAre(files: State, previous: seq<byte>, line: seq<byte>)
    requires Readable(files)
    ensures LineEvents(files, previous, line)
      == ArgumentEvents(files, previous, line) + CommandEvents(line) + if TakesArgument(line) then [] else [Prompt]
  {
  }

  lemma JoinEvents(a: seq<Event>, b: seq<Event>, c: seq<Event>, d: seq<Event>)
    ensures a + b + c + d == a + (b + c + d)
    ensures d == [] ==> a + b + c == a + (b + c + d)
  {
  }

  lemma CommandStrings()
    ensures HasString(HELLO + [0]) && CString(HELLO + [0]) == HELLO
    ensures HasString(HELP + [0]) && CString(HELP + [0]) == HELP
    ensures HasString(ECHO + [0]) && CString(ECHO + [0]) == ECHO
    ensures HasString(READ + [0]) && CString(READ + [0]) == READ
    ensures HELLO != HELP && HELLO != ECHO && HELLO != READ && HELP != ECHO && HELP != READ && ECHO != READ
  {
    Terminated(HELLO);
    Terminated(HELP);
    Terminated(ECHO);
    Terminated(READ);
    assert HELP[0] != ECHO[0] && READ[0] != ECHO[0] && READ[0] != HELP[0] && |HELLO| != |HELP|;
  }

  lemma {:induction false} CopiedString(s: seq<byte>, now: seq<byte>)
    requires 0 !in s && |s| < |now| && now[..|s| + 1] == s + [0]
    ensures HasString(now) && CString(now) == s
  {
    assert now == s + [0] + now[|s| + 1..];
    CStringOfTerminated(s, now[|s| + 1..]);
  }

  /** After one more character. */
  lemma {:induction false} OneMoreTracked(
    files: State, log: seq<byte>, c: byte, before: seq<Event>, now: seq<Event>,
    index: nat, buffer: seq<byte>, isArg: bool, cmdEcho: bool, cmdRead: bool)
    requires Readable(files) && before == Transcript(files, [], log) && 0 !in Pending(log) && c > 0
    requires var previous, pending := LastLine([], log), Pending(log);
      if c == NEWLINE then
        && now == before + LineEvents(files, previous, Line(pending))
        && index == 0 && |buffer| == BUFFER_SIZE && Awaits(isArg, cmdEcho, cmdRead, Line(pending))
      else
        && now == before + [if |pending| < LINE_SIZE then Event.Typed(c) else Overflow]
        && Holds(index, buffer, Line(pending + [c])) && Awaits(isArg, cmdEcho, cmdRead, previous)
    ensures Tracks(files, log + [c], now, index, buffer, isArg, cmdEcho, cmdRead)
  {
    TranscriptAppends(files, [], log, c);
    hide Transcript, LastLine, Pending, Readable, LineEvents, Awaits;
  }

  lemma StayMeans(fs: FileSystem, files: State)
    ensures FilesStay(fs, files) <==> fs.Valid() && fs.Abstract() == files
  {
  }

  lemma {:induction false} TextCopied(files: State, name: seq<byte>, before: seq<byte>, now: seq<byte>)
    requires Readable(files) && |before| == 512
    requires HasString(DataSector(files, name)) && now == Overwrite(before, 0, CString(DataSector(files, name)) + [0])
    ensures HasString(now) && CString(now) == FileText(files, name)
  {
    FileIsReadable(files, name);
    hide Readable, CString, HasString;
    CopiedString(FileText(files, name), now);
  }

  lemma FileIsReadable(files: State, name: seq<byte>)
    requires Readable(files)
    ensures ValidTable(files.entries) && HasString(DataSector(files, name))
    ensures 0 !in FileText(files, name) && |FileText(files, name)| < 512
  {
    assert HasString(DataSector(files, name));
  }
}
