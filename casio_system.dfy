/** The orchestrator's workload-file parser (casio_system.c): the task record,
    the in-place tokenising of one line held in the read buffer, the driver
    that walks the file's lines, and the clearing of the task table. */
module CasioSystem {
  import opened CText

  /** Size of the line buffer handed to fgets. */
  const BUF_LEN: nat := 200
  /** Capacity of the orchestrator's task table. */
  const CASIO_TASKS_NUM: nat := 20

  /** struct casio_tasks_config: one task line of the workload file. */
  datatype TaskConfig = TaskConfig(
    pid: int,
    minExec: real,
    maxExec: real,
    minInterArrival: real,
    maxInterArrival: real,
    deadline: real,
    minOffset: real,
    maxOffset: real)

  const ZeroConfig: TaskConfig := TaskConfig(0, 0.0, 0.0, 0.0, 0.0, 0.0, 0.0, 0.0)

  /** Number of tabs that separate the eight fields of a task line. */
  const TaskLineTabs: nat := 7

  /** A task line, and the text after each of its first seven tabs. */
  function Rests(line: string): (rs: seq<string>)
    requires TabCount(line) >= 7
    ensures |rs| == 8 && rs[0] == line
    ensures forall k :: 0 <= k < 8 ==> TabCount(rs[k]) == TabCount(line) - k
  {
    AfterTabs(line, TaskLineTabs)
  }

  /** Each rest is the tail of the one before it. */
  lemma RestsChain(line: string, k: nat)
    requires TabCount(line) >= 7 && k < 7
    ensures TabCount(Rests(line)[k]) == TabCount(line) - k
    ensures Rests(line)[k + 1] == Tail(Rests(line)[k])
  {
    AfterTabsStep(line, TaskLineTabs, k);
  }

  /** The eight texts a task line is cut into: the seven tab-free fields before
      the first seven tabs, and everything after the seventh tab. */
  function Pieces(line: string): (p: seq<string>)
    requires TabCount(line) >= 7
    ensures |p| == 8
  {
    Fields(line, TaskLineTabs)
  }

  /** Piece k is the head of the k-th rest; the last piece is the last rest. */
  lemma PieceAt(line: string, k: nat)
    requires TabCount(line) >= 7 && k <= 7
    ensures Pieces(line)[k] == if k < 7 then Head(Rests(line)[k]) else Rests(line)[7]
  {
    FieldsAt(line, TaskLineTabs, k);
  }

  /** Index in the line of the tab that ends field k. */
  function FieldEnd(line: string, k: nat): int
    requires TabCount(line) >= 7 && k < 7
  {
    |line| - |Rests(line)[k + 1]| - 1
  }

  /** Index in the line where field k starts: the start of the line, or just
      past the tab that ends field k-1. */
  function FieldStart(line: string, k: nat): int
    requires TabCount(line) >= 7 && k <= 7
  {
    if k == 0 then 0 else FieldEnd(line, k - 1) + 1
  }

  /** Rest k is the line from the start of field k on. */
  lemma {:induction false} RestFrom(line: string, k: nat)
    requires TabCount(line) >= 7 && k <= 7
    ensures 0 <= FieldStart(line, k) <= |line|
    ensures Rests(line)[k] == line[FieldStart(line, k)..]
  {
    if k > 0 {
      RestFrom(line, k - 1);
      RestsChain(line, k - 1);
      var st := FieldStart(line, k - 1);
      HeadSpan(line, st, st + |Head(line[st..])|);
    }
  }

  /** Field k is the head of the rest that starts it: it runs from its start
      up to the tab that ends it. */
  lemma FieldIsHead(line: string, k: nat)
    requires TabCount(line) >= 7 && k < 7
    ensures 0 <= FieldStart(line, k) <= |line|
    ensures FieldEnd(line, k) == FieldStart(line, k) + |Head(line[FieldStart(line, k)..])|
    ensures Pieces(line)[k] == Head(line[FieldStart(line, k)..])
    ensures TabCount(line[FieldStart(line, k)..]) > 0
  {
    RestFrom(line, k);
    RestsChain(line, k);
    PieceAt(line, k);
    var st := FieldStart(line, k);
    HeadSpan(line, st, st + |Head(line[st..])|);
  }

  /** Field k lies between its start and the tab that ends it, holds no tab,
      and is piece k of the line. */
  lemma FieldBounds(line: string, k: nat)
    requires TabCount(line) >= 7 && k < 7
    ensures 0 <= FieldStart(line, k) <= FieldEnd(line, k) < |line|
    ensures line[FieldEnd(line, k)] == TAB
    ensures forall j :: FieldStart(line, k) <= j < FieldEnd(line, k) ==> line[j] != TAB
    ensures Pieces(line)[k] == line[FieldStart(line, k)..FieldEnd(line, k)]
  {
    FieldIsHead(line, k);
    HeadSpan(line, FieldStart(line, k), FieldEnd(line, k));
  }

  /** Scanning field k from its start, the first tab met is the one that
      ends it. */
  lemma FieldScan(line: string, k: nat, s: nat)
    requires TabCount(line) >= 7 && k < 7 && FieldStart(line, k) <= s
    ensures FieldStart(line, k) <= FieldEnd(line, k) < |line|
    ensures s <= FieldEnd(line, k) ==> s < |line| && (line[s] == TAB <==> s == FieldEnd(line, k))
  {
    FieldBounds(line, k);
  }

  /** The last piece is the line from the start of field 7 on. */
  lemma LastPiece(line: string)
    requires TabCount(line) >= 7
    ensures 0 <= FieldStart(line, 7) <= |line|
    ensures Pieces(line)[7] == line[FieldStart(line, 7)..]
  {
    RestFrom(line, 7);
    PieceAt(line, 7);
  }

  /** The switch on the field number: field 0 is the pid, converted with
      atoi; fields 1 to 6 are converted with atof. Every other field keeps its
      value. */
  function WithField(c: TaskConfig, i: nat, text: string): TaskConfig
    requires i < 7
  {
    match i
    case 0 => c.(pid := Atoi(text))
    case 1 => c.(minExec := Atof(text))
    case 2 => c.(maxExec := Atof(text))
    case 3 => c.(minInterArrival := Atof(text))
    case 4 => c.(maxInterArrival := Atof(text))
    case 5 => c.(deadline := Atof(text))
    case 6 => c.(minOffset := Atof(text))
  }

  /** The parser's walk from field i on, over the rest of the line that
      begins with field i: each tab-ended field goes through the switch, and
      the text after the seventh tab becomes the maximum offset. */
  function Parse(rest: string, i: nat, c: TaskConfig): TaskConfig
    requires i <= 7 && TabCount(rest) >= 7 - i
    decreases 7 - i
  {
    if i == 7 then c.(maxOffset := Atof(rest))
    else Parse(Tail(rest), i + 1, WithField(c, i, Head(rest)))
  }

  /** The record a task line denotes: the walk over the whole line, starting
      from a zeroed slot. */
  function ParseTask(line: string): TaskConfig
    requires TabCount(line) >= 7
  {
    Parse(line, 0, ZeroConfig)
  }

  /** The walk over a task line converts its pieces in order, the first with
      atoi and the rest with atof, whatever the slot held before. */
  lemma ParseFields(line: string, c: TaskConfig)
    requires TabCount(line) >= 7
    ensures Parse(line, 0, c) ==
      TaskConfig(Atoi(Pieces(line)[0]), Atof(Pieces(line)[1]), Atof(Pieces(line)[2]),
                 Atof(Pieces(line)[3]), Atof(Pieces(line)[4]), Atof(Pieces(line)[5]),
                 Atof(Pieces(line)[6]), Atof(Pieces(line)[7]))
  {
    var rs := Rests(line);
    var p := Pieces(line);
    RestsChain(line, 0); PieceAt(line, 0);
    RestsChain(line, 1); PieceAt(line, 1);
    RestsChain(line, 2); PieceAt(line, 2);
    RestsChain(line, 3); PieceAt(line, 3);
    RestsChain(line, 4); PieceAt(line, 4);
    RestsChain(line, 5); PieceAt(line, 5);
    RestsChain(line, 6); PieceAt(line, 6);
    PieceAt(line, 7);
    var c1 := c.(pid := Atoi(p[0]));
    var c2 := c1.(minExec := Atof(p[1]));
    var c3 := c2.(maxExec := Atof(p[2]));
    var c4 := c3.(minInterArrival := Atof(p[3]));
    var c5 := c4.(maxInterArrival := Atof(p[4]));
    var c6 := c5.(deadline := Atof(p[5]));
    var c7 := c6.(minOffset := Atof(p[6]));
    assert Parse(rs[7], 7, c7) == c7.(maxOffset := Atof(p[7]));
    assert Parse(rs[6], 6, c6) == Parse(rs[7], 7, c7);
    assert Parse(rs[5], 5, c5) == Parse(rs[6], 6, c6);
    assert Parse(rs[4], 4, c4) == Parse(rs[5], 5, c5);
    assert Parse(rs[3], 3, c3) == Parse(rs[4], 4, c4);
    assert Parse(rs[2], 2, c2) == Parse(rs[3], 3, c3);
    assert Parse(rs[1], 1, c1) == Parse(rs[2], 2, c2);
    assert Parse(rs[0], 0, c) == Parse(rs[1], 1, c1);
  }

  /** One turn of the walk at the tab that ends field i of a task line:
      piece i goes through the switch and the walk goes on from field i+1;
      after the seventh tab only the last piece is left to convert. */
  lemma ParseStep(line: string, i: nat, c: TaskConfig)
    requires TabCount(line) >= 7 && i < 7
    ensures Parse(Rests(line)[i], i, c) == Parse(Rests(line)[i + 1], i + 1, WithField(c, i, Pieces(line)[i]))
    ensures i == 6 ==> Parse(Rests(line)[7], 7, c) == c.(maxOffset := Atof(Pieces(line)[7]))
  {
    RestsChain(line, i);
    PieceAt(line, i);
    PieceAt(line, 7);
  }

  /** The slot's previous contents never show through: the walk over a task
      line from any record gives the record the line denotes. */
  lemma ParseOverwrites(line: string, c: TaskConfig)
    requires TabCount(line) >= 7
    ensures Parse(line, 0, c) == ParseTask(line)
  {
    ParseFields(line, c);
    ParseFields(line, ZeroConfig);
  }

  /** Cutting loses nothing: the pieces joined back with tabs give the line. */
  lemma PiecesJoin(line: string)
    requires TabCount(line) >= 7
    ensures Join(Pieces(line)) == line
  {
    var rs := Rests(line);
    var p := Pieces(line);
    forall k | 0 <= k < 7
      ensures rs[k] == p[k] + [TAB] + rs[k + 1]
    {
      RestsChain(line, k);
      HeadTail(rs[k]);
      PieceAt(line, k);
    }
    PieceAt(line, 7);
    JoinChain(p, rs);
  }

  /** Eight texts joined with tabs, the first seven of them tab-free, are cut
      back into exactly those texts. */
  lemma JoinPieces(fs: seq<string>)
    requires |fs| == 8
    requires forall j :: 0 <= j < 7 ==> TabCount(fs[j]) == 0
    ensures TabCount(Join(fs)) >= 7
    ensures Pieces(Join(fs)) == fs
  {
    FieldsOfJoin(fs, TaskLineTabs);
  }

  /** A line written as eight tab-separated texts parses to the conversions of
      exactly those texts, field by field. */
  lemma TaskLineRoundTrip(fs: seq<string>)
    requires |fs| == 8
    requires forall j :: 0 <= j < 7 ==> TabCount(fs[j]) == 0
    ensures TabCount(Join(fs)) >= 7
    ensures ParseTask(Join(fs)) ==
      TaskConfig(Atoi(fs[0]), Atof(fs[1]), Atof(fs[2]), Atof(fs[3]),
                 Atof(fs[4]), Atof(fs[5]), Atof(fs[6]), Atof(fs[7]))
  {
    JoinPieces(fs);
    ParseFields(Join(fs), ZeroConfig);
  }

  // ---------------------------------------------------------------------------
  // The file as a sequence of lines

  /** fgets leaves a string of length at most one (empty, or a lone newline)
      for a blank line; such lines are skipped. */
  predicate Blank(line: string) {
    |line| <= 1
  }

  /** The lines the parser does not skip, in file order. */
  function NonBlank(lines: seq<string>): (r: seq<string>)
    ensures |r| <= |lines|
  {
    if lines == [] then []
    else
      var last := lines[|lines| - 1];
      NonBlank(lines[..|lines| - 1]) + (if Blank(last) then [] else [last])
  }

  /** Filtering a concatenation filters each part. */
  lemma {:induction false} NonBlankAppend(a: seq<string>, b: seq<string>)
    ensures NonBlank(a + b) == NonBlank(a) + NonBlank(b)
    decreases |b|
  {
    if b == [] {
      assert a + b == a;
    } else {
      var b' := b[..|b| - 1];
      assert (a + b)[..|a + b| - 1] == a + b';
      NonBlankAppend(a, b');
    }
  }

  /** A blank line inserted anywhere in the file changes nothing the parser
      sees: neither the duration nor any task. */
  lemma BlankLineIgnored(a: seq<string>, blank: string, b: seq<string>)
    requires Blank(blank)
    ensures NonBlank(a + [blank] + b) == NonBlank(a + b)
  {
    NonBlankAppend(a + [blank], b);
    NonBlankAppend(a, [blank]);
    NonBlankAppend(a, b);
    assert NonBlank([blank]) == NonBlank([]) + [];
  }

  /** Every line after the first non-blank one is a task line: it has at least
      seven tabs. */
  predicate TaskLines(nb: seq<string>) {
    forall j :: 1 <= j < |nb| ==> TabCount(nb[j]) >= 7
  }

  /** The task table a file fills: one record per non-blank line after the
      first, in file order. */
  function TaskRecords(nb: seq<string>): seq<TaskConfig>
    requires TaskLines(nb)
  {
    if |nb| <= 1 then []
    else TaskRecords(nb[..|nb| - 1]) + [ParseTask(nb[|nb| - 1])]
  }

  /** Dropping the last line keeps every later line a task line. */
  lemma TaskLinesShorter(nb: seq<string>)
    requires TaskLines(nb) && nb != []
    ensures TaskLines(nb[..|nb| - 1])
  {
    var nb' := nb[..|nb| - 1];
    forall j | 1 <= j < |nb'|
      ensures TabCount(nb'[j]) >= 7
    {
      assert nb'[j] == nb[j];
    }
  }

  /** The table holds one record per task line. */
  lemma {:induction false} TaskRecordsLength(nb: seq<string>)
    requires TaskLines(nb)
    ensures |TaskRecords(nb)| == if nb == [] then 0 else |nb| - 1
    decreases |nb|
  {
    if |nb| > 1 {
      TaskLinesShorter(nb);
      TaskRecordsLength(nb[..|nb| - 1]);
    }
  }

  /** Record k of the table comes from the (k+1)-th non-blank line. */
  lemma {:induction false} TaskRecordAt(nb: seq<string>, k: nat)
    requires TaskLines(nb) && k + 1 < |nb|
    ensures |TaskRecords(nb)| == |nb| - 1
    ensures TaskRecords(nb)[k] == ParseTask(nb[k + 1])
    decreases |nb|
  {
    var nb' := nb[..|nb| - 1];
    TaskLinesShorter(nb);
    TaskRecordsLength(nb');
    if k + 2 < |nb| {
      TaskRecordAt(nb', k);
      assert nb'[k + 1] == nb[k + 1];
    }
  }

  /** The table holds one record per task line, record k coming from the
      (k+1)-th non-blank line. */
  lemma TaskRecordsInOrder(nb: seq<string>)
    requires TaskLines(nb)
    ensures |TaskRecords(nb)| == if nb == [] then 0 else |nb| - 1
    ensures forall k :: 0 <= k < |TaskRecords(nb)| ==> TaskRecords(nb)[k] == ParseTask(nb[k + 1])
  {
    TaskRecordsLength(nb);
    forall k | 0 <= k < |TaskRecords(nb)|
      ensures TaskRecords(nb)[k] == ParseTask(nb[k + 1])
    {
      TaskRecordAt(nb, k);
    }
  }

  /** What the parser needs of the file: fgets-sized lines of text, a tab in
      the duration line (the scan for it has no other stop) and at least seven
      tabs in every task line. */
  predicate WellFormed(lines: seq<string>) {
    (forall k :: 0 <= k < |lines| ==> |lines[k]| < BUF_LEN && NUL !in lines[k]) &&
    (NonBlank(lines) != [] ==> TabCount(NonBlank(lines)[0]) > 0) &&
    TaskLines(NonBlank(lines))
  }

  // ---------------------------------------------------------------------------
  // The parser's operations on the buffer and the task table

  /** clear_casio_tasks_config_info: zeroes every field of the first num
      entries and leaves the rest alone. */
  method ClearTasksConfigInfo(tasks: array<TaskConfig>, num: int)
    requires num <= tasks.Length
    modifies tasks
    ensures forall i :: 0 <= i < tasks.Length ==>
      tasks[i] == if i < num then ZeroConfig else old(tasks[i])
  {
    var i := 0;
    while i < num
      invariant 0 <= i && (i <= num || i == 0)
      invariant forall j :: 0 <= j < tasks.Length ==>
        tasks[j] == if j < i then ZeroConfig else old(tasks[j])
    {
      tasks[i] := tasks[i].(pid := 0, minExec := 0.0, maxExec := 0.0,
                            minInterArrival := 0.0, maxInterArrival := 0.0,
                            deadline := 0.0, minOffset := 0.0, maxOffset := 0.0);
      i := i + 1;
    }
  }

  /** get_int_val: the duration is read from the text before the first tab,
      which is overwritten with NUL. The scan for the tab does not stop at the
      string's end, so a tab must lie somewhere in the buffer; when it lies
      past the end, the string has no tab and all of it is converted. */
  method GetIntVal(buf: array<char>) returns (val: int)
    requires NUL in buf[..] && TAB in buf[..]
    modifies buf
    ensures val == Atoi(Head(CStr(old(buf[..]), 0)))
    ensures buf[..] == old(buf[..])[IndexOf(old(buf[..]), TAB) := NUL]
  {
    ghost var b := buf[..];
    var s := 0;
    while buf[s] != TAB
      invariant 0 <= s <= IndexOf(b, TAB)
      invariant TAB !in b[..s]
      decreases IndexOf(b, TAB) - s
    {
      assert b[..s + 1] == b[..s] + [b[s]];
      s := s + 1;
    }
    IndexOfUnique(b, TAB, s);
    buf[s] := NUL;
    val := Atoi(CStr(buf[..], 0));

    ghost var z := IndexOf(b, NUL);
    ghost var line := CStr(b, 0);
    CStrUpTo(b, 0, z);
    if s < z {
      assert buf[..][..s] == b[..s];
      assert b[..s] == b[..z][..s];
      CStrUpTo(buf[..], 0, s);
      assert line[..s] == b[..s];
      TabCountPositive(line[..s]);
      HeadAt(line, s);
    } else {
      assert buf[..][..z] == b[..z];
      CStrUpTo(buf[..], 0, z);
      assert TAB !in line by { assert b[..z] == b[..s][..z]; }
      TabCountPositive(line);
      HeadNoTab(line);
    }
  }

  /** get_casio_task_config_info: walks the line in place, turning each of the
      first seven tabs into NUL and converting the field it ends; the text after
      the seventh tab becomes the maximum offset. Only slot n of the table is
      written, and the count grows by one. Nothing bounds n in the source, so
      the caller must keep it inside the table. */
  method GetTaskConfigInfo(buf: array<char>, tasks: array<TaskConfig>, n: nat) returns (n': nat)
    requires NUL in buf[..]
    requires TabCount(CStr(buf[..], 0)) >= 7
    requires n < tasks.Length
    modifies buf, tasks
    ensures n' == n + 1
    ensures tasks[..] == old(tasks[..])[n := ParseTask(CStr(old(buf[..]), 0))]
    ensures BlankedUpTo(buf[..], old(buf[..]), |CStr(old(buf[..]), 0)| - |Rests(CStr(old(buf[..]), 0))[7]|)
  {
    ghost var b := buf[..];
    ghost var line := CStr(b, 0);
    ghost var z := |line|;
    ghost var t0 := tasks[..];
    CStrSpan(b, 0);
    assert b[0..] == b;
    ghost var rs := Rests(line);
    ParseOverwrites(line, t0[n]);

    var s, s1, i := 0, 0, 0;
    ghost var e := FieldEnd(line, 0);
    FieldScan(line, 0, 0);
    while i < 7
      invariant 0 <= i <= 7
      invariant s1 == FieldStart(line, i) && s1 <= s
      invariant i < 7 ==> e == FieldEnd(line, i) && s <= e
      invariant i == 7 ==> s == s1
      invariant BlankedUpTo(buf[..], b, s1)
      invariant forall j :: 0 <= j < tasks.Length && j != n ==> tasks[j] == t0[j]
      invariant i < 7 ==> Parse(rs[i], i, tasks[n]) == ParseTask(line)
      invariant i == 7 ==> tasks[n] == ParseTask(line)
      decreases z - s
    {
      FieldScan(line, i, s);
      assert buf[s] == line[s];
      if buf[s] == TAB {
        s1, i := EndField(buf, tasks, n, s, s1, i, b, line);
        if i < 7 {
          e := FieldEnd(line, i);
          FieldScan(line, i, s1);
        }
      }
      s := s + 1;
    }
    n' := n + 1;
    assert tasks[..] == t0[n := ParseTask(line)];
  }

  /** The branch taken at the tab that ends field i: the tab becomes the
      string terminator, field i is converted into the record, and after
      the seventh tab the rest of the line is converted as the maximum
      offset. */
  method EndField(buf: array<char>, tasks: array<TaskConfig>, n: nat, s: nat, s1: nat, i: nat,
                  ghost b: seq<char>, ghost line: string)
    returns (s1': nat, i': nat)
    requires |line| < |b| && b[|line|] == NUL && line == b[..|line|] && NUL !in line
    requires TabCount(line) >= 7 && i < 7
    requires s1 == FieldStart(line, i) && s == FieldEnd(line, i)
    requires BlankedUpTo(buf[..], b, s1)
    requires n < tasks.Length && Parse(Rests(line)[i], i, tasks[n]) == ParseTask(line)
    modifies buf, tasks
    ensures i' == i + 1 && s1' == s + 1 == FieldStart(line, i')
    ensures BlankedUpTo(buf[..], b, s1')
    ensures forall j :: 0 <= j < tasks.Length && j != n ==> tasks[j] == old(tasks[j])
    ensures i' < 7 ==> Parse(Rests(line)[i'], i', tasks[n]) == ParseTask(line)
    ensures i' == 7 ==> tasks[n] == ParseTask(line)
    ensures i < 6 ==> tasks[n] == WithField(old(tasks[n]), i, Pieces(line)[i])
    ensures i == 6 ==> tasks[n] == WithField(old(tasks[n]), 6, Pieces(line)[6]).(maxOffset := Atof(Pieces(line)[7]))
  {
    ghost var before := buf[..];
    TabStep(b, |line|, line, i, s1, s, before);
    ParseStep(line, i, tasks[n]);
    buf[s] := NUL;
    assert buf[..] == before[s := NUL];
    var text := CStr(buf[..], s1);
    tasks[n] := WithField(tasks[n], i, text);
    s1' := s + 1;
    i' := i + 1;
    if i' == 7 {
      ParseStep(line, i, tasks[n]);
      tasks[n] := tasks[n].(maxOffset := Atof(CStr(buf[..], s1')));
    }
  }

  /** What the parser relies on when it meets the tab that ends field i:
      overwriting it leaves the buffer blanked past it, the C string at the
      field's start is piece i, and after the seventh tab the C string just
      past it is the last piece. */
  lemma TabStep(b: seq<char>, z: nat, line: string, i: nat, s1: nat, s: nat, before: seq<char>)
    requires z < |b| && b[z] == NUL && line == b[..z] && NUL !in line
    requires TabCount(line) >= 7 && i < 7
    requires s1 == FieldStart(line, i) && s == FieldEnd(line, i)
    requires BlankedUpTo(before, b, s1)
    ensures s < z
    ensures BlankedUpTo(before[s := NUL], b, FieldStart(line, i + 1))
    ensures CStr(before[s := NUL], s1) == Pieces(line)[i]
    ensures i == 6 ==> CStr(before[s := NUL], s + 1) == Pieces(line)[7]
  {
    FieldBounds(line, i);
    TabFreeSpan(b, z, line, s1, s);
    BlankedStep(before, b, s1, s);
    FieldText(b, z, line, s1, s, before[s := NUL]);
    RestText(b, z, line, s, before[s := NUL]);
    LastPiece(line);
  }

  /** A stretch of the line with no tab is the same stretch of the buffer
      that holds the line. */
  lemma TabFreeSpan(b: seq<char>, z: nat, line: string, s1: nat, s: nat)
    requires z <= |b| && line == b[..z] && s1 <= s <= z
    requires forall j :: s1 <= j < s ==> line[j] != TAB
    ensures line[s1..s] == b[s1..s]
    ensures TAB !in b[s1..s] && TAB !in line[s1..s]
  {
    assert line[s1..s] == b[s1..s];
    forall j | 0 <= j < s - s1
      ensures b[s1..s][j] != TAB
    {
      assert b[s1..s][j] == line[s1 + j];
    }
  }

  /** Once the tab at s is overwritten with NUL, the C string read from s1 is
      the field line[s1..s]. */
  lemma FieldText(b: seq<char>, z: nat, line: string, s1: nat, s: nat, after: seq<char>)
    requires z <= |b| && line == b[..z] && NUL !in line
    requires s1 <= s < z && TAB !in line[s1..s]
    requires BlankedUpTo(after, b, s + 1) && after[s] == NUL
    ensures CStr(after, s1) == line[s1..s]
  {
    assert b[s1..s] == line[s1..s];
    BlankedSame(after, b, s + 1, s1, s);
    CStrUpTo(after, s1, s);
  }

  /** Past the last NUL written, the C string read from s+1 is the rest of the
      line. */
  lemma RestText(b: seq<char>, z: nat, line: string, s: nat, after: seq<char>)
    requires z < |b| && b[z] == NUL && line == b[..z] && NUL !in line
    requires s < z
    requires BlankedUpTo(after, b, s + 1)
    ensures CStr(after, s + 1) == line[s + 1..]
  {
    BlankedSame(after, b, s + 1, s + 1, z);
    assert b[s + 1..z] == line[s + 1..];
    CStrUpTo(after, s + 1, z);
  }

  /** a is the start of b. */
  predicate IsPrefix(a: seq<string>, b: seq<string>) {
    |a| <= |b| && a == b[..|a|]
  }

  /** Reading one more line of the file: a non-blank line is the next one
      the parser keeps, a blank one is skipped. */
  lemma NonBlankStep(lines: seq<string>, k: nat)
    requires k < |lines|
    ensures NonBlank(lines[..k + 1]) == NonBlank(lines[..k]) + (if Blank(lines[k]) then [] else [lines[k]])
  {
    var a := lines[..k + 1];
    assert a[..|a| - 1] == lines[..k];
  }

  /** The lines kept from the start of the file are the first lines kept
      from the whole file. */
  lemma {:induction false} NonBlankPrefix(lines: seq<string>, k: nat)
    requires k <= |lines|
    ensures IsPrefix(NonBlank(lines[..k]), NonBlank(lines))
    decreases |lines|
  {
    if k == |lines| {
      assert lines[..k] == lines;
    } else {
      var shorter := lines[..|lines| - 1];
      assert shorter[..k] == lines[..k];
      NonBlankPrefix(shorter, k);
      var p := NonBlank(lines[..k]);
      var q := NonBlank(shorter);
      var r := NonBlank(lines);
      assert r == q + (if Blank(lines[|lines| - 1]) then [] else [lines[|lines| - 1]]);
      assert r[..|p|] == q[..|p|];
    }
  }

  /** What a well-formed file promises of a line the parser keeps: a tab
      if it is the first kept line, seven tabs otherwise. */
  lemma KeptLine(kept: seq<string>, line: string, nb: seq<string>)
    requires IsPrefix(kept + [line], nb)
    requires TabCount(nb[0]) > 0 && TaskLines(nb)
    ensures kept == [] ==> TabCount(line) > 0
    ensures kept != [] ==> TabCount(line) >= 7
  {
    assert nb[|kept|] == (kept + [line])[|kept|] == line;
  }

  /** One more task line appends its record to the table. */
  lemma TaskRecordsSnoc(nb: seq<string>, line: string)
    requires TaskLines(nb) && nb != [] && TabCount(line) >= 7
    ensures TaskLines(nb + [line])
    ensures TaskRecords(nb + [line]) == TaskRecords(nb) + [ParseTask(line)]
  {
    var nb' := nb + [line];
    assert forall j :: 1 <= j < |nb'| ==> nb'[j] == if j < |nb| then nb[j] else line;
    assert nb'[..|nb'| - 1] == nb;
  }

  /** Storing record r in slot n of a table: the first n + 1 slots are the
      first n followed by r, and the slots after n are untouched. */
  lemma TableStep(before: seq<TaskConfig>, after: seq<TaskConfig>, n: nat, r: TaskConfig)
    requires n < |before| && after == before[n := r]
    ensures after[..n + 1] == before[..n] + [r]
    ensures after[n + 1..] == before[n + 1..]
  {
  }

  /** fgets: copies one line into the buffer and terminates it. */
  method Fgets(buffer: array<char>, line: string)
    requires |line| < buffer.Length
    modifies buffer
    ensures buffer[..|line|] == line && buffer[|line|] == NUL
    ensures forall j :: |line| < j < buffer.Length ==> buffer[j] == old(buffer[j])
  {
    forall j | 0 <= j < |line| {
      buffer[j] := line[j];
    }
    buffer[|line|] := NUL;
  }

  /** What the reading loop has built so far: whether the duration line has
      been read (count), the duration, and the filled slots of the table. */
  datatype Loaded = Loaded(count: int, duration: int, table: seq<TaskConfig>)

  /** What one more line needs for the loop to handle it: a tab if it is the
      duration line, seven tabs and a free slot if it is a task line. */
  predicate Fits(st: Loaded, line: string, room: int) {
    !Blank(line) ==>
      if st.count == 0 then TabCount(line) > 0
      else TabCount(line) >= 7 && |st.table| < room
  }

  /** One turn of the reading loop on a line: a blank line changes nothing;
      the first other line gives the duration; each later one appends its
      record to the table. */
  function Step(st: Loaded, line: string): (st': Loaded)
    requires Fits(st, line, |st.table| + 1)
  {
    if Blank(line) then st
    else if st.count == 0 then Loaded(1, Atoi(Head(line)), st.table)
    else st.(table := st.table + [ParseTask(line)])
  }

  /** The loop state after the first k lines, in terms of the lines kept. */
  predicate ReadSoFar(lines: seq<string>, k: nat, duration0: int, st: Loaded) {
    k <= |lines| && TaskLines(NonBlank(lines[..k])) &&
    var kept := NonBlank(lines[..k]);
    st.count == (if kept == [] then 0 else 1) &&
    st.duration == (if kept == [] then duration0 else Atoi(Head(kept[0]))) &&
    st.table == TaskRecords(kept)
  }

  /** Before any line is read nothing is kept. */
  lemma ReadNothing(lines: seq<string>, duration0: int)
    ensures ReadSoFar(lines, 0, duration0, Loaded(0, duration0, []))
  {
    assert lines[..0] == [];
  }

  /** A well-formed file lets the loop handle line k, and handling it moves
      the state on to the first k + 1 lines. */
  lemma ReadNext(lines: seq<string>, k: nat, duration0: int, st: Loaded, room: int)
    requires WellFormed(lines) && |NonBlank(lines)| <= room + 1
    requires k < |lines| && ReadSoFar(lines, k, duration0, st)
    ensures |lines[k]| < BUF_LEN && NUL !in lines[k]
    ensures Fits(st, lines[k], room)
    ensures ReadSoFar(lines, k + 1, duration0, Step(st, lines[k]))
  {
    NonBlankStep(lines, k);
    if Blank(lines[k]) {
      ReadBlank(lines, k, duration0, st);
    } else {
      NonBlankPrefix(lines, k + 1);
      KeptLine(NonBlank(lines[..k]), lines[k], NonBlank(lines));
      if NonBlank(lines[..k]) == [] {
        ReadDuration(lines, k, duration0, st);
      } else {
        ReadTask(lines, k, duration0, st, |NonBlank(lines)|);
      }
    }
  }

  /** A blank line changes nothing. */
  lemma ReadBlank(lines: seq<string>, k: nat, duration0: int, st: Loaded)
    requires k < |lines| && Blank(lines[k]) && ReadSoFar(lines, k, duration0, st)
    requires NonBlank(lines[..k + 1]) == NonBlank(lines[..k]) + []
    ensures ReadSoFar(lines, k + 1, duration0, Step(st, lines[k]))
  {
    assert NonBlank(lines[..k]) + [] == NonBlank(lines[..k]);
  }

  /** The first kept line sets the duration and leaves the table empty. */
  lemma ReadDuration(lines: seq<string>, k: nat, duration0: int, st: Loaded)
    requires k < |lines| && !Blank(lines[k]) && TabCount(lines[k]) > 0
    requires ReadSoFar(lines, k, duration0, st) && NonBlank(lines[..k]) == []
    requires NonBlank(lines[..k + 1]) == NonBlank(lines[..k]) + [lines[k]]
    ensures ReadSoFar(lines, k + 1, duration0, Step(st, lines[k]))
  {
    var kept' := NonBlank(lines[..k + 1]);
    assert kept' == [lines[k]];
  }

  /** A later kept line has room in a table sized for the file, appends its
      record and keeps the duration. */
  lemma ReadTask(lines: seq<string>, k: nat, duration0: int, st: Loaded, total: nat)
    requires k < |lines| && !Blank(lines[k]) && TabCount(lines[k]) >= 7
    requires ReadSoFar(lines, k, duration0, st) && NonBlank(lines[..k]) != []
    requires NonBlank(lines[..k + 1]) == NonBlank(lines[..k]) + [lines[k]]
    requires |NonBlank(lines[..k + 1])| <= total
    ensures |st.table| < total - 1
    ensures ReadSoFar(lines, k + 1, duration0, Step(st, lines[k]))
  {
    var kept := NonBlank(lines[..k]);
    TaskRecordsInOrder(kept);
    TaskRecordsSnoc(kept, lines[k]);
    assert (kept + [lines[k]])[0] == kept[0];
  }

  /** After the last line the state is the one the whole file determines. */
  lemma ReadEverything(lines: seq<string>, duration0: int, st: Loaded)
    requires ReadSoFar(lines, |lines|, duration0, st)
    ensures TaskLines(NonBlank(lines))
    ensures st.duration == if NonBlank(lines) == [] then duration0 else Atoi(Head(NonBlank(lines)[0]))
    ensures |st.table| == if NonBlank(lines) == [] then 0 else |NonBlank(lines)| - 1
    ensures st.table == TaskRecords(NonBlank(lines))
  {
    assert lines[..|lines|] == lines;
    TaskRecordsInOrder(NonBlank(lines));
  }

  /** One turn of the reading loop: fgets brings the line into the buffer;
      a line longer than one character is the duration line when none has
      been read yet (count 0) and a task line stored in slot n otherwise;
      the buffer is then emptied. */
  method ReadLine(buffer: array<char>, line: string, tasks: array<TaskConfig>,
                  count: int, duration: int, n: nat)
    returns (count': int, duration': int, n': nat)
    requires buffer.Length == BUF_LEN && |line| < BUF_LEN && NUL !in line
    requires n <= tasks.Length && Fits(Loaded(count, duration, tasks[..n]), line, tasks.Length)
    modifies buffer, tasks
    ensures n' <= tasks.Length
    ensures Loaded(count', duration', tasks[..n']) == Step(Loaded(count, duration, old(tasks[..n])), line)
    ensures forall j :: n' <= j < tasks.Length ==> tasks[j] == old(tasks[j])
  {
    count', duration', n' := count, duration, n;
    Fgets(buffer, line);
    CStrUpTo(buffer[..], 0, |line|);
    if |CStr(buffer[..], 0)| > 1 {
      if count == 0 {
        assert TAB in buffer[..] by {
          TabCountPositive(line);
          assert buffer[..][..|line|] == line;
        }
        duration' := GetIntVal(buffer);
        count' := count + 1;
      } else {
        ghost var before := tasks[..];
        n' := GetTaskConfigInfo(buffer, tasks, n);
        TableStep(before, tasks[..], n, ParseTask(line));
      }
    }
    buffer[0] := NUL;
  }

  /** get_casio_tasks_config_info over the file's lines: blank lines are
      skipped, the first non-blank line sets the duration, and each later one
      fills the next slot of the table, starting from slot 0. The duration is
      left as it was when the file has no non-blank line. The source does not
      bound the number of task lines; the table must have room for them. */
  method GetTasksConfigInfo(lines: seq<string>, duration0: int, tasks: array<TaskConfig>)
    returns (duration: int, n: nat)
    requires WellFormed(lines)
    requires |NonBlank(lines)| <= tasks.Length + 1
    modifies tasks
    ensures duration == if NonBlank(lines) == [] then duration0 else Atoi(Head(NonBlank(lines)[0]))
    ensures n == if NonBlank(lines) == [] then 0 else |NonBlank(lines)| - 1
    ensures n <= tasks.Length
    ensures tasks[..n] == TaskRecords(NonBlank(lines))
  {
    var buffer := new char[BUF_LEN];
    var count := 0;
    n := 0;
    duration := duration0;
    buffer[0] := NUL;
    var k := 0;
    ReadNothing(lines, duration0);
    assert tasks[..0] == [];
    while k < |lines|
      invariant 0 <= k <= |lines| && n <= tasks.Length
      invariant ReadSoFar(lines, k, duration0, Loaded(count, duration, tasks[..n]))
    {
      ReadNext(lines, k, duration0, Loaded(count, duration, tasks[..n]), tasks.Length);
      count, duration, n := ReadLine(buffer, lines[k], tasks, count, duration, n);
      k := k + 1;
    }
    ReadEverything(lines, duration0, Loaded(count, duration, tasks[..n]));
  }
}
