/** What a history session keeps, as a bounded queue of commands beside a file. */
module HistoryModel {
  import opened HistoryFiles
  import Lexing

  /** The commands in memory, oldest first, and the file. */
  datatype Memory = Memory(cmds: seq<Lexing.CString>, file: string)

  datatype Op = Save(cmd: Lexing.CString, now: Time) | Clear | Load

  function Loaded(m: Memory): Memory {
    m.(cmds := LastN(m.cmds + FileCommands(m.file)))
  }

  function Step(m: Memory, op: Op): Memory {
    match op
    case Save(cmd, now) =>
      if cmd == "" then m else Memory(LastN(m.cmds + [cmd]), m.file + Line(Item(now, cmd)))
    case Clear => m.(cmds := [])
    case Load => Loaded(m)
  }

  /** The file a session leaves behind: rewritten only when the ring is full. */
  function Trimmed(items: seq<Item>, file: string): string {
    if |items| < HIST_SIZE then file else Text(items)
  }

  /** A session that begins with a file. */
  function After(file: string, ops: seq<Op>): Memory {
    if ops == [] then Loaded(Memory([], file))
    else Step(After(file, ops[..|ops| - 1]), ops[|ops| - 1])
  }

  /** All commands saved or loaded since the last clear, or since the file began. */
  function Remembered(file: string, ops: seq<Op>): seq<Lexing.CString> {
    if ops == [] then FileCommands(file)
    else
      var init := ops[..|ops| - 1];
      var r := Remembered(file, init);
      match ops[|ops| - 1]
      case Save(cmd, _) => if cmd == "" then r else r + [cmd]
      case Clear => []
      case Load => r + FileCommands(After(file, init).file)
  }

  /** All commands of the file and all saved since. */
  function Entered(file: string, ops: seq<Op>): seq<Lexing.CString> {
    if ops == [] then FileCommands(file)
    else
      var r := Entered(file, ops[..|ops| - 1]);
      match ops[|ops| - 1]
      case Save(cmd, _) => if cmd == "" then r else r + [cmd]
      case _ => r
  }

  /** Memory and file agree on the last commands. */
  predicate InSync(m: Memory) {
    m.cmds == LastN(FileCommands(m.file))
  }

  // ---------------------------------------------------------------- the queue

  /** Over every session of saves, clears and loads, the ring holds the last `HIST_SIZE` commands
      since the last clear. */
  lemma {:induction false} RunIsQueue(file: string, ops: seq<Op>)
    ensures After(file, ops).cmds == LastN(Remembered(file, ops))
    decreases |ops|
  {
    if ops == [] {
      assert [] + FileCommands(file) == FileCommands(file);
    } else {
      var init, op := ops[..|ops| - 1], ops[|ops| - 1];
      RunIsQueue(file, init);
      match op
      case Save(cmd, _) => LastNAppend(Remembered(file, init), [cmd]);
      case Clear =>
      case Load => LastNAppend(Remembered(file, init), FileCommands(After(file, init).file));
    }
  }

  // ---------------------------------------------------------------- memory and file, one save

  lemma DifferentLast(a: seq<Lexing.CString>, cmd: Lexing.CString, b: seq<Lexing.CString>)
    requires b != [] ==> b[|b| - 1] != cmd
    ensures LastN(a + [cmd]) != LastN(b)
  {
    if b != [] {
      assert [] + b == b;
    }
  }

  /** Saving keeps memory and file in agreement when the line goes with the tail of the file. */
  lemma WholeKeepsSync(m: Memory, cmd: Lexing.CString, now: Time)
    requires InSync(m) && cmd != "" && AppendsWhole(Tail(m.file), Item(now, cmd))
    ensures InSync(Step(m, Save(cmd, now)))
  {
    LineAppends(m.file, Item(now, cmd));
    LastNAppend(FileCommands(m.file), [cmd]);
  }

  /** The line of the command is read with a tail that holds a command already. */
  lemma SpoiledLast(m: Memory, cmd: Lexing.CString, now: Time)
    requires var tail := Tail(m.file);
             '\0' !in tail && ';' in tail && '\n' !in cmd && |tail| + |Line(Item(now, cmd))| <= CHUNK + 1
    ensures var cs := FileCommands(m.file + Line(Item(now, cmd))); cs != [] && cs[|cs| - 1] != cmd
  {
    var it := Item(now, cmd);
    FileSplit(m.file, Line(it));
    SpoiledWhole(Tail(m.file), it);
  }

  /** Where agreement after a save says that the file has the command: behind a newline, when the
      ring has room for all commands of the file, and when tail and line fit one read. */
  predicate Telling(m: Memory, it: Item) {
    || Terminated(m.file)
    || |FileCommands(m.file)| + 1 < HIST_SIZE
    || ('\0' !in Tail(m.file) && |Tail(m.file)| + |Line(it)| <= CHUNK + 1)
  }

  lemma BrokenSync(m: Memory, cmd: Lexing.CString, now: Time)
    requires InSync(m) && cmd != "" && !AppendsWhole(Tail(m.file), Item(now, cmd)) && Telling(m, Item(now, cmd))
    ensures !InSync(Step(m, Save(cmd, now)))
  {
    var it := Item(now, cmd);
    var held, read := FileCommands(m.file), FileCommands(m.file + Line(it));
    LineAppends(m.file, it);
    LastNAppend(held, [cmd]);
    if '\n' in cmd {
      if read != [] {
        CommandsBounded(m.file + Line(it), read[|read| - 1]);
      }
      DifferentLast(held, cmd, read);
    } else if Terminated(m.file) {
      WholeBehindNewline(m.file, it);
      LineCommands(it);
      FileAppend(m.file, Line(it));
      DifferentLast(held, cmd, read);
    } else if |held| + 1 < HIST_SIZE {
      assert LastN(held + [cmd]) == held + [cmd];
    } else {
      DecimalPlain(now);
      SpoiledLast(m, cmd, now);
      DifferentLast(held, cmd, read);
    }
  }

  /** Saving keeps memory and file in agreement if the line goes with the tail of the file, and,
      unless a long file without a final newline hides it, only if. */
  lemma {:induction false} SaveKeepsSync(m: Memory, cmd: Lexing.CString, now: Time)
    requires InSync(m) && cmd != ""
    ensures AppendsWhole(Tail(m.file), Item(now, cmd)) ==> InSync(Step(m, Save(cmd, now)))
    ensures Telling(m, Item(now, cmd)) ==>
              (InSync(Step(m, Save(cmd, now))) <==> AppendsWhole(Tail(m.file), Item(now, cmd)))
    ensures Terminated(m.file) ==> (InSync(Step(m, Save(cmd, now))) <==> Readable(Item(now, cmd)))
  {
    if AppendsWhole(Tail(m.file), Item(now, cmd)) {
      WholeKeepsSync(m, cmd, now);
    } else if Telling(m, Item(now, cmd)) {
      BrokenSync(m, cmd, now);
    }
    if Terminated(m.file) {
      WholeBehindNewline(m.file, Item(now, cmd));
    }
  }

  lemma AllTheSame<T>(xs: seq<T>, x: T)
    requires |xs| == HIST_SIZE && forall i :: 0 <= i < HIST_SIZE ==> xs[i] == x
    ensures LastN(xs + [x]) == xs
  {}

  /** Elsewhere agreement can be a coincidence: behind a NUL a save is lost from a file, and nobody
      can tell when the ring is full of that same command. */
  lemma LostUnnoticed(m: Memory, cmd: Lexing.CString, now: Time)
    requires InSync(m) && cmd != "" && '\n' !in cmd
    requires '\0' in Tail(m.file) && |Tail(m.file)| + |Line(Item(now, cmd))| <= CHUNK
    requires |m.cmds| == HIST_SIZE && forall i :: 0 <= i < HIST_SIZE ==> m.cmds[i] == cmd
    ensures InSync(Step(m, Save(cmd, now))) && !AppendsWhole(Tail(m.file), Item(now, cmd))
    ensures FileCommands(Step(m, Save(cmd, now)).file) == FileCommands(m.file)
  {
    var it, tail := Item(now, cmd), Tail(m.file);
    FileSplit(m.file, Line(it));
    FileIs(m.file);
    HiddenLine(tail, it);
    DecimalPlain(now);
    AllTheSame(m.cmds, cmd);
  }

  // ---------------------------------------------------------------- memory and file, whole sessions

  predicate SavesText(op: Op) {
    op.Save? && op.cmd != ""
  }

  /** Every saved command goes with the tail of the file it finds. */
  predicate SavesWhole(file: string, ops: seq<Op>) {
    ops == [] ||
    var init, op := ops[..|ops| - 1], ops[|ops| - 1];
    && SavesWhole(file, init)
    && (SavesText(op) ==> AppendsWhole(Tail(After(file, init).file), Item(op.now, op.cmd)))
  }

  /** Nothing was saved yet. */
  predicate Untouched(ops: seq<Op>) {
    forall i :: 0 <= i < |ops| ==> !SavesText(ops[i])
  }

  lemma {:induction false} UntouchedFile(file: string, ops: seq<Op>)
    requires Untouched(ops)
    ensures After(file, ops).file == file && Entered(file, ops) == FileCommands(file) && SavesWhole(file, ops)
    decreases |ops|
  {
    if ops != [] {
      var init := ops[..|ops| - 1];
      assert forall i :: 0 <= i < |init| ==> init[i] == ops[i];
      UntouchedFile(file, init);
    }
  }

  lemma {:induction false} TouchedFile(file: string, ops: seq<Op>)
    requires Terminated(file) || !Untouched(ops)
    ensures Terminated(After(file, ops).file)
    decreases |ops|
  {
    if ops != [] {
      var init := ops[..|ops| - 1];
      if !SavesText(ops[|ops| - 1]) {
        assert !Untouched(ops) ==> !Untouched(init);
        TouchedFile(file, init);
      }
    }
  }

  lemma LastOfConcat(a: seq<Lexing.CString>, b: seq<Lexing.CString>, c: seq<Lexing.CString>, last: Lexing.CString)
    requires b != [] && (b[|b| - 1] == last ==> b == [last])
    ensures a + b == c + [last] <==> a == c && b == [last]
  {
    if a + b == c + [last] {
      assert (a + b)[|a + b| - 1] == b[|b| - 1];
      assert a == (a + b)[..|a|] && c == (c + [last])[..|c|];
    }
  }

  /** One save behind a newline: the file gets the command exactly when the item is readable, and
      nothing that was wrong before is put right. */
  lemma SaveBehindNewline(file: string, entered: seq<Lexing.CString>, it: Item)
    requires Terminated(file)
    ensures FileCommands(file + Line(it)) == entered + [it.cmd] <==>
              FileCommands(file) == entered && AppendsWhole(Tail(file), it)
  {
    WholeBehindNewline(file, it);
    LineCommands(it);
    FileAppend(file, Line(it));
    LastOfConcat(FileCommands(file), FileCommands(Line(it)), entered, it.cmd);
  }

  /** The file holds every command ever entered, in order and nothing else, if and only if every
      saved one goes with the tail of the file it finds. */
  lemma {:induction false} FileKeepsAll(file: string, ops: seq<Op>)
    ensures FileCommands(After(file, ops).file) == Entered(file, ops) <==> SavesWhole(file, ops)
    decreases |ops|
  {
    if ops != [] {
      var init, op := ops[..|ops| - 1], ops[|ops| - 1];
      FileKeepsAll(file, init);
      if SavesText(op) {
        var it := Item(op.now, op.cmd);
        if Terminated(file) || !Untouched(init) {
          TouchedFile(file, init);
          SaveBehindNewline(After(file, init).file, Entered(file, init), it);
        } else {
          UntouchedFile(file, init);
          LineAppends(file, it);
        }
      }
    }
  }

  /** Behind a file that ends with a newline, that is: every saved command is readable. */
  lemma {:induction false} ReadableSaves(file: string, ops: seq<Op>)
    requires Terminated(file)
    ensures SavesWhole(file, ops) <==>
              forall i :: 0 <= i < |ops| && SavesText(ops[i]) ==> Readable(Item(ops[i].now, ops[i].cmd))
    decreases |ops|
  {
    if ops != [] {
      var init, op := ops[..|ops| - 1], ops[|ops| - 1];
      assert forall i :: 0 <= i < |init| ==> init[i] == ops[i];
      ReadableSaves(file, init);
      TouchedFile(file, init);
      if SavesText(op) {
        WholeBehindNewline(After(file, init).file, Item(op.now, op.cmd));
      }
    }
  }

  predicate IsSuffix<T(==)>(a: seq<T>, b: seq<T>) {
    |a| <= |b| && b[|b| - |a|..] == a
  }

  lemma SuffixSnoc<T>(a: seq<T>, b: seq<T>, x: T)
    requires IsSuffix(a, b)
    ensures IsSuffix(a + [x], b + [x])
  {
    assert (b + [x])[|b| - |a|..] == b[|b| - |a|..] + [x];
  }

  lemma SuffixLastN<T>(r: seq<T>, e: seq<T>)
    requires IsSuffix(r, e)
    ensures LastN(r) == LastN(e) <==> |r| == |e| || |r| >= HIST_SIZE
  {
    if |r| >= HIST_SIZE {
      assert LastN(e) == e[|e| - |r|..][|r| - HIST_SIZE..];
    }
  }

  /** What is remembered ends what was entered, or the other way around after a load. */
  lemma {:induction false} RememberedOverlaps(file: string, ops: seq<Op>)
    requires SavesWhole(file, ops)
    ensures var r, e := Remembered(file, ops), Entered(file, ops); IsSuffix(r, e) || IsSuffix(e, r)
    decreases |ops|
  {
    if ops != [] {
      var init := ops[..|ops| - 1];
      RememberedOverlaps(file, init);
      var r, e := Remembered(file, init), Entered(file, init);
      match ops[|ops| - 1]
      case Save(cmd, _) =>
        if IsSuffix(r, e) {
          SuffixSnoc(r, e, cmd);
        } else {
          SuffixSnoc(e, r, cmd);
        }
      case Clear =>
      case Load =>
        FileKeepsAll(file, init);
        assert IsSuffix(e, r + e);
    }
  }

  /** When the file holds all commands, memory and file agree after a session if and only if as many
      commands are remembered as were entered, or the ring is too small for either. */
  lemma {:induction false} RunInSync(file: string, ops: seq<Op>)
    requires SavesWhole(file, ops)
    ensures var r, e := |Remembered(file, ops)|, |Entered(file, ops)|;
            InSync(After(file, ops)) <==> r == e || (r >= HIST_SIZE && e >= HIST_SIZE)
  {
    var r, e := Remembered(file, ops), Entered(file, ops);
    RunIsQueue(file, ops);
    FileKeepsAll(file, ops);
    RememberedOverlaps(file, ops);
    if IsSuffix(r, e) {
      SuffixLastN(r, e);
    } else {
      SuffixLastN(e, r);
    }
  }

  // ---------------------------------------------------------------- sessions that lose commands

  /** What makes the last `n` commands in memory those of the file, from the last event back: saved
      commands are readable, a clear finds a file without commands, a load finds an empty ring or
      enough in the file. */
  predicate Matches(file: string, ops: seq<Op>, n: nat)
    decreases |ops|
  {
    n == 0 || ops == [] ||
    var init := ops[..|ops| - 1];
    match ops[|ops| - 1]
    case Save(cmd, now) =>
      if cmd == "" then Matches(file, init, n) else Readable(Item(now, cmd)) && Matches(file, init, n - 1)
    case Clear => FileCommands(After(file, init).file) == []
    case Load => Remembered(file, init) == [] || |FileCommands(After(file, init).file)| >= n
  }

  lemma LastAppended<T>(n: nat, a: seq<T>, x: T)
    requires n > 0
    ensures Last(n, a + [x]) == Last(n - 1, a) + [x]
  {}

  lemma LastMatches<T>(n: nat, a: seq<T>, x: T, b: seq<T>, c: seq<T>)
    requires n > 0 && c != [] && (c[|c| - 1] == x ==> c == [x])
    ensures Last(n, a + [x]) == Last(n, b + c) <==> c == [x] && Last(n - 1, a) == Last(n - 1, b)
  {
    var l, m := Last(n, a + [x]), Last(n, b + c);
    assert l[|l| - 1] == x && m[|m| - 1] == c[|c| - 1];
    LastAppended(n, a, x);
    LastAppended(n, b, x);
    if c == [x] && l == m {
      assert Last(n - 1, a) == l[..|l| - 1];
      assert Last(n - 1, b) == m[..|m| - 1];
    }
  }

  lemma NoneLast<T>(n: nat, xs: seq<T>)
    ensures Last(n, xs) == Last(n, []) <==> n == 0 || xs == []
  {}

  lemma LastLoaded<T>(n: nat, a: seq<T>, b: seq<T>)
    ensures Last(n, a + b) == Last(n, b) <==> a == [] || |b| >= n
  {
    if a == [] {
      assert a + b == b;
    }
  }

  lemma SaveMatches(before: string, r: seq<Lexing.CString>, it: Item, n: nat)
    requires Terminated(before) && n > 0
    ensures Last(n, r + [it.cmd]) == Last(n, FileCommands(before + Line(it))) <==>
              Readable(it) && Last(n - 1, r) == Last(n - 1, FileCommands(before))
  {
    FileAppend(before, Line(it));
    LineCommands(it);
    LastMatches(n, r, it.cmd, FileCommands(before), FileCommands(Line(it)));
  }

  /** The last `n` commands of memory are the last `n` of the file. */
  predicate SameLast(file: string, ops: seq<Op>, n: nat) {
    Last(n, Remembered(file, ops)) == Last(n, FileCommands(After(file, ops).file))
  }

  lemma SaveSession(file: string, ops: seq<Op>, n: nat, init: seq<Op>, op: Op)
    requires Terminated(file) && n > 0 && SavesText(op) && ops == init + [op]
    requires SameLast(file, init, n - 1) <==> Matches(file, init, n - 1)
    ensures SameLast(file, ops, n) <==> Matches(file, ops, n)
  {
    assert ops[..|ops| - 1] == init;
    TouchedFile(file, init);
    SaveMatches(After(file, init).file, Remembered(file, init), Item(op.now, op.cmd), n);
  }

  lemma LoadSession(file: string, ops: seq<Op>, n: nat, init: seq<Op>, op: Op)
    requires n > 0 && !op.Save? && ops == init + [op]
    ensures SameLast(file, ops, n) <==> Matches(file, ops, n)
  {
    assert ops[..|ops| - 1] == init;
    var held := FileCommands(After(file, init).file);
    NoneLast(n, held);
    LastLoaded(n, Remembered(file, init), held);
  }

  lemma EmptySession(file: string, ops: seq<Op>, n: nat)
    requires n == 0 || ops == []
    ensures SameLast(file, ops, n) && Matches(file, ops, n)
  {
    if n == 0 {
      NoneLast(n, Remembered(file, ops));
      NoneLast(n, FileCommands(After(file, ops).file));
    }
  }

  lemma EmptySave(file: string, ops: seq<Op>, n: nat, init: seq<Op>, op: Op)
    requires n > 0 && op.Save? && op.cmd == "" && ops == init + [op]
    ensures SameLast(file, ops, n) == SameLast(file, init, n) && Matches(file, ops, n) == Matches(file, init, n)
  {
    assert ops[..|ops| - 1] == init;
  }

  /** Behind a file that ends with a newline, whatever is saved, cleared or loaded. */
  lemma {:induction false} LastOfSession(file: string, ops: seq<Op>, n: nat)
    requires Terminated(file)
    ensures SameLast(file, ops, n) <==> Matches(file, ops, n)
    decreases |ops|
  {
    if n == 0 || ops == [] {
      EmptySession(file, ops, n);
    } else {
      var init, op := ops[..|ops| - 1], ops[|ops| - 1];
      assert ops == init + [op];
      if SavesText(op) {
        LastOfSession(file, init, n - 1);
        SaveSession(file, ops, n, init, op);
      } else if op.Save? {
        LastOfSession(file, init, n);
        EmptySave(file, ops, n, init, op);
      } else {
        LoadSession(file, ops, n, init, op);
      }
    }
  }

  /** Memory and file agree after any session behind a final newline if and only if the last 1000
      commands match. */
  lemma RunMatches(file: string, ops: seq<Op>)
    requires Terminated(file)
    ensures InSync(After(file, ops)) <==> Matches(file, ops, HIST_SIZE)
  {
    RunIsQueue(file, ops);
    LastOfSession(file, ops, HIST_SIZE);
  }

  /** Behind an unfinished line that holds a NUL, a ring cleared before the first save can agree with
      a file that lost that save. */
  lemma LostAfterClear(file: string, cmd: Lexing.CString, now: Time)
    requires cmd != "" && '\n' !in cmd && FileCommands(file) == [cmd]
    requires '\0' in Tail(file) && |Tail(file)| + |Line(Item(now, cmd))| <= CHUNK
    ensures var ops := [Clear, Save(cmd, now)]; InSync(After(file, ops)) && !SavesWhole(file, ops)
  {
    var ops, it := [Clear, Save(cmd, now)], Item(now, cmd);
    assert ops[..1] == [Clear] && [Clear][..0] == [];
    assert After(file, [Clear]) == Memory([], file);
    FileSplit(file, Line(it));
    FileIs(file);
    HiddenLine(Tail(file), it);
    DecimalPlain(now);
    assert [] + [cmd] == [cmd];
    LineAppends(file, it);
  }

  /** A clear empties the ring but not the file. */
  lemma ClearForgets(file: string, ops: seq<Op>)
    ensures InSync(After(file, ops + [Clear])) <==> FileCommands(After(file, ops).file) == []
  {
    assert (ops + [Clear])[..|ops|] == ops;
    NoneLast(HIST_SIZE, FileCommands(After(file, ops).file));
  }

  /** A session that clears the history of one command and still finds it in the file. */
  lemma ClearedCommand(it: Item)
    requires Readable(it)
    ensures var m := After(Line(it), [Clear]);
            m.cmds == [] && FileCommands(m.file) == [it.cmd] && !InSync(m)
  {
    LineCommands(it);
    assert [] + [Clear] == [Clear] && [Clear][..0] == [];
    ClearForgets(Line(it), []);
  }

  predicate OnlySaves(ops: seq<Op>) {
    forall i :: 0 <= i < |ops| ==> ops[i].Save?
  }

  predicate NoLoads(ops: seq<Op>) {
    forall i :: 0 <= i < |ops| ==> !ops[i].Load?
  }

  lemma {:induction false} NothingForgotten(file: string, ops: seq<Op>)
    requires OnlySaves(ops)
    ensures Remembered(file, ops) == Entered(file, ops)
    decreases |ops|
  {
    if ops != [] {
      NothingForgotten(file, ops[..|ops| - 1]);
    }
  }

  /** Without a clear, the ring holds the last commands of the file if every save goes with the end
      of the file; and only if, as long as the ring has room. Behind a final newline exactly the
      last 1000 saves count. */
  lemma WithoutClear(file: string, ops: seq<Op>)
    requires OnlySaves(ops)
    ensures SavesWhole(file, ops) ==> InSync(After(file, ops))
    ensures |After(file, ops).cmds| < HIST_SIZE ==> (InSync(After(file, ops)) <==> SavesWhole(file, ops))
    ensures Terminated(file) ==> (InSync(After(file, ops)) <==> Matches(file, ops, HIST_SIZE))
  {
    NothingForgotten(file, ops);
    RunIsQueue(file, ops);
    FileKeepsAll(file, ops);
    if Terminated(file) {
      RunMatches(file, ops);
    }
  }

  /** Without a load, memory is the end of what was entered, and the file holds no fewer commands. */
  lemma {:induction false} SomeForgotten(file: string, ops: seq<Op>)
    requires NoLoads(ops)
    ensures IsSuffix(Remembered(file, ops), Entered(file, ops))
    decreases |ops|
  {
    if ops != [] {
      var init, op := ops[..|ops| - 1], ops[|ops| - 1];
      SomeForgotten(file, init);
      if op.Save? {
        SuffixSnoc(Remembered(file, init), Entered(file, init), op.cmd);
      }
    }
  }

  lemma {:induction false} MoreInFile(file: string, ops: seq<Op>)
    requires Terminated(file)
    ensures |FileCommands(After(file, ops).file)| >= |Entered(file, ops)|
    decreases |ops|
  {
    if ops != [] {
      var init, op := ops[..|ops| - 1], ops[|ops| - 1];
      MoreInFile(file, init);
      if SavesText(op) {
        TouchedFile(file, init);
        FileAppend(After(file, init).file, Line(Item(op.now, op.cmd)));
        LineCommands(Item(op.now, op.cmd));
      }
    }
  }

  /** Without a load, behind a final newline and in a ring with room, memory and file agree if and
      only if nothing was lost and nothing forgotten. */
  lemma WithoutLoad(file: string, ops: seq<Op>)
    requires Terminated(file) && NoLoads(ops) && |After(file, ops).cmds| < HIST_SIZE
    ensures InSync(After(file, ops)) <==>
              SavesWhole(file, ops) && |Remembered(file, ops)| == |Entered(file, ops)|
  {
    RunIsQueue(file, ops);
    SomeForgotten(file, ops);
    MoreInFile(file, ops);
    FileKeepsAll(file, ops);
  }

  // ---------------------------------------------------------------- the next session

  /** Ring and file of a session, with the time stamps of the ring. */
  ghost predicate Leaves(items: seq<Item>, file: string, ops: seq<Op>) {
    |items| <= HIST_SIZE && Commands(items) == After(file, ops).cmds
  }

  /** The commands the next session begins with. */
  function Reloaded(items: seq<Item>, file: string, ops: seq<Op>): seq<Lexing.CString> {
    After(Trimmed(items, After(file, ops).file), []).cmds
  }

  lemma FullReload(items: seq<Item>)
    requires |items| == HIST_SIZE
    ensures LastN(FileCommands(Text(items))) == Commands(items) <==> AllReadable(items)
  {
    TextCommands(items);
    var cs := FileCommands(Text(items));
    assert LastN(cs) == cs[|cs| - |items|..];
  }

  /** A full ring is rewritten, any other is what the file is. */
  lemma ReloadCases(file: string, ops: seq<Op>, items: seq<Item>)
    requires Leaves(items, file, ops)
    ensures Reloaded(items, file, ops) == Commands(items) <==>
              if |items| < HIST_SIZE then InSync(After(file, ops)) else AllReadable(items)
  {
    RunIsQueue(Trimmed(items, After(file, ops).file), []);
    if |items| == HIST_SIZE {
      FullReload(items);
    }
  }

  /** Trim at the end of a session and load at the start of the next give back the commands that were
      in memory: from a full ring if and only if all its items are readable, whatever was lost before;
      from a ring with room if and only if the commands match, behind a final newline; or, when every
      save goes with the end of any file, nothing was forgotten or loaded twice. */
  lemma TrimThenLoad(file: string, ops: seq<Op>, items: seq<Item>)
    requires Leaves(items, file, ops)
    ensures |items| == HIST_SIZE ==>
              (Reloaded(items, file, ops) == Commands(items) <==> AllReadable(items))
    ensures |items| < HIST_SIZE && Terminated(file) ==>
              (Reloaded(items, file, ops) == Commands(items) <==> Matches(file, ops, HIST_SIZE))
    ensures |items| < HIST_SIZE && SavesWhole(file, ops) ==>
              (Reloaded(items, file, ops) == Commands(items) <==>
                 |Remembered(file, ops)| == |Entered(file, ops)|)
  {
    ReloadCases(file, ops, items);
    if Terminated(file) {
      RunMatches(file, ops);
    }
    if |items| < HIST_SIZE && SavesWhole(file, ops) {
      RunIsQueue(file, ops);
      RunInSync(file, ops);
    }
  }

  /** Behind any file, and with saves only: a ring with room is given back exactly when every save
      goes with the end of the file. */
  lemma ReloadAfterSaves(file: string, ops: seq<Op>, items: seq<Item>)
    requires OnlySaves(ops) && Leaves(items, file, ops) && |items| < HIST_SIZE
    ensures Reloaded(items, file, ops) == Commands(items) <==> SavesWhole(file, ops)
  {
    ReloadCases(file, ops, items);
    WithoutClear(file, ops);
  }

  /** With clears too, behind a final newline: exactly when, besides, nothing was forgotten. */
  lemma ReloadAfterClears(file: string, ops: seq<Op>, items: seq<Item>)
    requires Terminated(file) && NoLoads(ops) && Leaves(items, file, ops) && |items| < HIST_SIZE
    ensures Reloaded(items, file, ops) == Commands(items) <==>
              SavesWhole(file, ops) && |Remembered(file, ops)| == |Entered(file, ops)|
  {
    ReloadCases(file, ops, items);
    WithoutLoad(file, ops);
  }

  lemma {:induction false} SavedIsEntered(file: string, ops: seq<Op>, i: nat)
    requires i < |ops| && SavesText(ops[i])
    ensures ops[i].cmd in Entered(file, ops)
    decreases |ops|
  {
    if i < |ops| - 1 {
      SavedIsEntered(file, ops[..|ops| - 1], i);
    }
  }

  /** Its line fits one read under any time stamp. */
  predicate Short(cmd: string) {
    '\n' !in cmd && |cmd| + 21 <= CHUNK
  }

  lemma ShortReadable(it: Item)
    requires Short(it.cmd)
    ensures Readable(it)
  {
    ReadableAtAnyTime(it.cmd);
    assert it == Item(it.time, it.cmd);
  }

  /** Without a clear, when the commands of the ring leave room for any time stamp, the next session
      begins with the commands this one ends with; a ring with room may also need a final newline. */
  lemma ReloadWithoutClear(file: string, ops: seq<Op>, items: seq<Item>)
    requires OnlySaves(ops) && Leaves(items, file, ops)
    requires |items| == HIST_SIZE || Terminated(file) || SavesWhole(file, ops)
    requires forall i :: 0 <= i < |items| ==> Short(items[i].cmd)
    ensures Reloaded(items, file, ops) == Commands(items)
  {
    if |items| == HIST_SIZE {
      forall i | 0 <= i < |items| ensures Readable(items[i]) {
        ShortReadable(items[i]);
      }
      TrimThenLoad(file, ops, items);
    } else {
      if Terminated(file) {
        ShortSavesWhole(file, ops, items);
      }
      ReloadAfterSaves(file, ops, items);
    }
  }

  lemma ShortSavesWhole(file: string, ops: seq<Op>, items: seq<Item>)
    requires Terminated(file) && OnlySaves(ops) && Leaves(items, file, ops) && |items| < HIST_SIZE
    requires forall i :: 0 <= i < |items| ==> Short(items[i].cmd)
    ensures SavesWhole(file, ops)
  {
    NothingForgotten(file, ops);
    RunIsQueue(file, ops);
    forall i | 0 <= i < |ops| && SavesText(ops[i]) ensures Readable(Item(ops[i].now, ops[i].cmd)) {
      SavedIsEntered(file, ops, i);
      assert ops[i].cmd in Commands(items);
      var k :| 0 <= k < |items| && Commands(items)[k] == ops[i].cmd;
      assert Short(items[k].cmd);
      ShortReadable(Item(ops[i].now, ops[i].cmd));
    }
    ReadableSaves(file, ops);
  }

  lemma PutCommand(items: seq<Item>, it: Item, all: seq<Lexing.CString>)
    requires Commands(items) == LastN(all)
    ensures Commands(LastN(items + [it])) == LastN(all + [it.cmd])
  {
    CommandsAppend(items, it);
    LastNAppend(all, [it.cmd]);
  }
}
