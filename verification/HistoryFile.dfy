/** The history file: how it is written line by line, and what a reader with a fixed buffer sees. */
module HistoryFiles {
  import opened Decimals
  import opened Lexing
  import opened Sequences

  /** A command in history, with the time it was entered. */
  datatype Item = Item(time: Time, cmd: CString)

  /** A 64-bit time stamp. */
  type Time = x: int | -0x8000_0000_0000_0000 <= x < 0x8000_0000_0000_0000

  const HIST_SIZE: nat := 1000

  /** The most characters one read returns: the buffer less its terminator. */
  const CHUNK: nat := 1023

  // ---------------------------------------------------------------- strings

  /** Position of a character, the length when it does not occur. */
  function Find(s: string, c: char): (i: nat)
    ensures i <= |s| && (i < |s| ==> s[i] == c)
    ensures forall k :: 0 <= k < i ==> s[k] != c
  {
    if s == "" || s[0] == c then 0 else Find(s[1..], c) + 1
  }

  lemma FindIs(s: string, c: char, i: nat)
    requires i <= |s| && (forall k :: 0 <= k < i ==> s[k] != c) && (i < |s| ==> s[i] == c)
    ensures Find(s, c) == i
  {}

  lemma FindBeyond(a: string, b: string, c: char)
    requires c !in a
    ensures Find(a + b, c) == |a| + Find(b, c)
  {
    FindIs(a + b, c, |a| + Find(b, c));
  }

  function UpTo(s: string, c: char): (r: string)
    ensures c !in r
  {
    s[..Find(s, c)]
  }

  // ---------------------------------------------------------------- reading

  /** Length of what one read takes: up to and including a newline, or a full buffer. */
  function ReadLength(text: string): (n: nat)
    ensures n <= |text| && n <= CHUNK && (text != "" ==> n > 0)
  {
    var nl := Find(text, '\n');
    if nl < CHUNK && nl < |text| then nl + 1 else if |text| < CHUNK then |text| else CHUNK
  }

  function Chunks(text: string): seq<string>
    decreases |text|
  {
    if text == "" then [] else [text[..ReadLength(text)]] + Chunks(text[ReadLength(text)..])
  }

  /** The command in a chunk, at most one: what lies between the first `;` and the newline. */
  function CommandsIn(chunk: string): (cs: seq<CString>)
    ensures |cs| <= 1
  {
    var s := UpTo(chunk, '\0');
    var sep := Find(s, ';');
    if sep == |s| then [] else [UpTo(s[sep + 1..], '\n')]
  }

  function AllCommands(chunks: seq<string>): seq<CString> {
    if chunks == [] then [] else CommandsIn(chunks[0]) + AllCommands(chunks[1..])
  }

  /** The commands a reader finds in a file. */
  function FileCommands(text: string): seq<CString> {
    AllCommands(Chunks(text))
  }

  // ---------------------------------------------------------------- writing

  function LineOf(stamp: string, cmd: string): string {
    stamp + ";" + cmd + "\n"
  }

  function Line(it: Item): string {
    LineOf(Decimal(it.time), it.cmd)
  }

  function Text(items: seq<Item>): string {
    if items == [] then "" else Text(items[..|items| - 1]) + Line(items[|items| - 1])
  }

  function Commands(items: seq<Item>): seq<CString> {
    seq(|items|, i requires 0 <= i < |items| => items[i].cmd)
  }

  /** Nothing follows the last newline. */
  predicate Terminated(text: string) {
    text == "" || text[|text| - 1] == '\n'
  }

  /** An item a reader gets back whole: one line, and all of it but the newline fits the buffer. */
  predicate Readable(it: Item) {
    '\n' !in it.cmd && |Line(it)| <= CHUNK + 1
  }

  /** The last `n` elements. */
  function Last<T>(n: nat, xs: seq<T>): (r: seq<T>)
    ensures |r| <= n && |r| <= |xs|
  {
    if |xs| <= n then xs else xs[|xs| - n..]
  }

  function LastN<T>(xs: seq<T>): (r: seq<T>)
    ensures |r| <= HIST_SIZE && |r| <= |xs|
  {
    Last(HIST_SIZE, xs)
  }

  // ---------------------------------------------------------------- reading on behind a text

  lemma NextChunk(text: string)
    requires text != ""
    ensures FileCommands(text) == CommandsIn(text[..ReadLength(text)]) + FileCommands(text[ReadLength(text)..])
  {
    assert Chunks(text)[1..] == Chunks(text[ReadLength(text)..]);
  }

  lemma OneChunk(text: string)
    requires text != "" && ReadLength(text) == |text|
    ensures FileCommands(text) == CommandsIn(text)
  {
    NextChunk(text);
    assert text[..|text|] == text && text[|text|..] == "";
    assert CommandsIn(text) + [] == CommandsIn(text);
  }

  /** A read that more text cannot make longer: it fills the buffer or ends with a newline. */
  predicate Complete(chunk: string) {
    |chunk| == CHUNK || (chunk != "" && chunk[|chunk| - 1] == '\n')
  }

  /** What the last read of a text takes, when more text would make it longer; else nothing. */
  function Tail(text: string): (t: string)
    ensures |t| < CHUNK && |t| <= |text| && '\n' !in t
    decreases |text|
  {
    if text == "" then ""
    else if ReadLength(text) < |text| then Tail(text[ReadLength(text)..])
    else if Complete(text) then "" else text
  }

  /** The commands of all reads before the tail. */
  function HeadCommands(text: string): seq<CString>
    decreases |text|
  {
    if text == "" then []
    else if ReadLength(text) < |text| then CommandsIn(text[..ReadLength(text)]) + HeadCommands(text[ReadLength(text)..])
    else if Complete(text) then CommandsIn(text) else []
  }

  lemma ReadOn(a: string, b: string)
    requires a != "" && (ReadLength(a) < |a| || Complete(a))
    ensures var n := ReadLength(a);
            ReadLength(a + b) == n && (a + b)[..n] == a[..n] && (a + b)[n..] == a[n..] + b
  {
    var nl := Find(a, '\n');
    if nl < |a| {
      FindIs(a + b, '\n', nl);
    } else {
      assert Find(a + b, '\n') >= |a|;
    }
  }

  /** More text is read behind the head, together with the tail. */
  lemma {:induction false} FileSplit(a: string, b: string)
    ensures FileCommands(a + b) == HeadCommands(a) + FileCommands(Tail(a) + b)
    decreases |a|
  {
    if a == "" || (ReadLength(a) == |a| && !Complete(a)) {
      assert a + b == Tail(a) + b;
    } else {
      var n := ReadLength(a);
      ReadOn(a, b);
      NextChunk(a + b);
      FileSplit(a[n..], b);
      if n < |a| {
        Regroup(CommandsIn(a[..n]), HeadCommands(a[n..]), FileCommands(Tail(a) + b));
      } else {
        assert a[..n] == a && a[n..] + b == "" + b == b;
      }
    }
  }

  lemma FileIs(a: string)
    ensures FileCommands(a) == HeadCommands(a) + CommandsIn(Tail(a))
  {
    FileSplit(a, "");
    assert a + "" == a && Tail(a) + "" == Tail(a);
    if Tail(a) != "" {
      assert ReadLength(Tail(a)) == |Tail(a)|;
      OneChunk(Tail(a));
    }
  }

  lemma {:induction false} TerminatedTail(a: string)
    requires Terminated(a)
    ensures Tail(a) == ""
    decreases |a|
  {
    if a != "" && ReadLength(a) < |a| {
      TerminatedTail(a[ReadLength(a)..]);
    }
  }

  /** What is written behind a terminated file is read behind it. */
  lemma FileAppend(a: string, b: string)
    requires Terminated(a)
    ensures FileCommands(a + b) == FileCommands(a) + FileCommands(b)
  {
    TerminatedTail(a);
    FileSplit(a, b);
    FileIs(a);
    assert "" + b == b && HeadCommands(a) + [] == HeadCommands(a);
  }

  // ---------------------------------------------------------------- one line

  /** A text that neither ends a time stamp nor a line nor a string. */
  predicate Plain(s: string) {
    ';' !in s && '\n' !in s && '\0' !in s
  }

  lemma DecimalPlain(x: Time)
    ensures 0 < |Decimal(x)| <= 20 && Plain(Decimal(x))
  {
    var v: int := x;
    var n: nat := if v < 0 then -v else v;
    assert Pow10(7) == 10000000;
    assert Pow10(13) == 10000000000000;
    assert Pow10(19) == 10000000000000000000;
    DecimalNatShort(n, 19);
    DecimalNatValue(n);
    forall c | c in Decimal(x) ensures c != ';' && c != '\n' && c != '\0' {
      var i :| 0 <= i < |Decimal(x)| && Decimal(x)[i] == c;
      assert x >= 0 || i > 0 ==> IsDigit(c);
    }
  }

  /** Nothing read back contains a newline, or is as long as the text it came from. */
  lemma {:induction false} CommandsBounded(text: string, c: CString)
    requires c in FileCommands(text)
    ensures '\n' !in c && |c| < |text| && (Terminated(text) ==> |c| + 1 < |text|)
    decreases |text|
  {
    var n := ReadLength(text);
    NextChunk(text);
    if c in CommandsIn(text[..n]) {
      assert n == |text| ==> text[..n] == text;
    } else {
      CommandsBounded(text[n..], c);
    }
  }

  lemma ChunkOfLine(stamp: string, part: CString)
    requires Plain(stamp)
    ensures CommandsIn(stamp + ";" + part) == [UpTo(part, '\n')]
  {
    var chunk := stamp + ";" + part;
    FindIs(chunk, '\0', |chunk|);
    assert chunk[..|chunk|] == chunk;
    FindIs(chunk, ';', |stamp|);
    assert chunk[|stamp| + 1..] == part;
  }

  /** The command with its newline, as far as the first read of its line goes. */
  function FirstPart(stamp: string, cmd: CString): (r: CString)
    requires |stamp| < ReadLength(LineOf(stamp, cmd))
  {
    (cmd + "\n")[..ReadLength(LineOf(stamp, cmd)) - |stamp| - 1]
  }

  /** The first read of a line goes beyond the time stamp. */
  lemma FirstRead(stamp: string, cmd: CString)
    requires Plain(stamp) && |stamp| < CHUNK
    ensures var line := LineOf(stamp, cmd);
            && |stamp| < ReadLength(line)
            && line[..ReadLength(line)] == stamp + ";" + FirstPart(stamp, cmd)
  {
    var line := LineOf(stamp, cmd);
    assert line[|stamp|] == ';';
    assert forall k :: 0 <= k < |stamp| ==> line[k] == stamp[k];
    assert Find(line, '\n') > |stamp|;
    assert line == stamp + ";" + (cmd + "\n");
  }

  lemma ReadOneLine(stamp: string, cmd: CString)
    requires '\n' !in stamp && '\n' !in cmd
    ensures var line := LineOf(stamp, cmd); ReadLength(line) == if |line| <= CHUNK then |line| else CHUNK
  {
    FindIs(LineOf(stamp, cmd), '\n', |LineOf(stamp, cmd)| - 1);
  }

  lemma FirstCommand(stamp: string, cmd: CString)
    requires Plain(stamp) && |stamp| < CHUNK
    ensures var line := LineOf(stamp, cmd);
            && |stamp| < ReadLength(line)
            && FileCommands(line) == [UpTo(FirstPart(stamp, cmd), '\n')] + FileCommands(line[ReadLength(line)..])
  {
    FirstRead(stamp, cmd);
    ChunkOfLine(stamp, FirstPart(stamp, cmd));
    NextChunk(LineOf(stamp, cmd));
  }

  lemma LoneNewline()
    ensures FileCommands("\n") == []
  {
    FindIs("\n", '\n', 0);
    FindIs("\n", '\0', 1);
    FindIs("\n", ';', 1);
    assert UpTo("\n", '\0') == "\n";
    OneChunk("\n");
  }

  lemma ReadableLine(stamp: string, cmd: CString)
    requires Plain(stamp) && |stamp| < CHUNK && '\n' !in cmd && |LineOf(stamp, cmd)| <= CHUNK + 1
    ensures FileCommands(LineOf(stamp, cmd)) == [cmd]
  {
    FirstCommand(stamp, cmd);
    ReadOneLine(stamp, cmd);
    var line, part := LineOf(stamp, cmd), FirstPart(stamp, cmd);
    var rest := line[ReadLength(line)..];
    FindIs(part, '\n', |cmd|);
    assert part[..|cmd|] == cmd;
    if |line| > CHUNK {
      assert rest == "\n";
      LoneNewline();
    } else {
      assert rest == "";
    }
  }

  lemma LongLine(stamp: string, cmd: CString)
    requires Plain(stamp) && |stamp| < CHUNK && '\n' !in cmd && |LineOf(stamp, cmd)| > CHUNK + 1
    ensures var cs := FileCommands(LineOf(stamp, cmd)); cs != [] && cs[|cs| - 1] != cmd
  {
    FirstCommand(stamp, cmd);
    ReadOneLine(stamp, cmd);
    var line, cs := LineOf(stamp, cmd), FileCommands(LineOf(stamp, cmd));
    var rest := FileCommands(line[CHUNK..]);
    if rest == [] {
      assert |cs[|cs| - 1]| <= |FirstPart(stamp, cmd)| < |cmd|;
    } else {
      assert cs[|cs| - 1] == rest[|rest| - 1];
      CommandsBounded(line[CHUNK..], rest[|rest| - 1]);
    }
  }

  /** A line with any plain stamp reads as some commands, the last of which is the one written if
      and only if it has no newline and the line fits the buffer; then it is the only one. */
  lemma StampedLine(stamp: string, cmd: CString)
    requires Plain(stamp) && |stamp| < CHUNK
    ensures var cs := FileCommands(LineOf(stamp, cmd));
            var whole := '\n' !in cmd && |LineOf(stamp, cmd)| <= CHUNK + 1;
            && cs != [] && (cs[|cs| - 1] == cmd <==> whole) && (whole ==> cs == [cmd])
  {
    FirstCommand(stamp, cmd);
    var cs := FileCommands(LineOf(stamp, cmd));
    if '\n' in cmd {
      CommandsBounded(LineOf(stamp, cmd), cs[|cs| - 1]);
    } else if |LineOf(stamp, cmd)| <= CHUNK + 1 {
      ReadableLine(stamp, cmd);
    } else {
      LongLine(stamp, cmd);
    }
  }

  /** A written line reads as some commands, the last of which is the one written if and only if
      the item is readable; then it is the only one. */
  lemma LineCommands(it: Item)
    ensures var cs := FileCommands(Line(it));
            && cs != [] && (cs[|cs| - 1] == it.cmd <==> Readable(it)) && (Readable(it) ==> cs == [it.cmd])
  {
    DecimalPlain(it.time);
    StampedLine(Decimal(it.time), it.cmd);
  }

  lemma LongestStamp()
    ensures |Decimal(-0x8000_0000_0000_0000)| == 20
  {
    assert Pow10(6) == 1000000;
    assert Pow10(12) == 1000000000000;
    assert Pow10(18) == 1000000000000000000;
    DecimalNatLong(9223372036854775808, 18);
    DecimalPlain(-0x8000_0000_0000_0000);
  }

  /** A command is readable whatever its time stamp if and only if it has no newline and leaves room
      for a separator and the longest stamp. */
  lemma ReadableAtAnyTime(cmd: CString)
    ensures (forall time: Time :: Readable(Item(time, cmd))) <==> '\n' !in cmd && |cmd| + 21 <= CHUNK
  {
    LongestStamp();
    var it := Item(-0x8000_0000_0000_0000, cmd);
    assert |Line(it)| == 22 + |cmd|;
    if '\n' !in cmd && |cmd| + 21 <= CHUNK {
      forall time: Time ensures Readable(Item(time, cmd)) {
        DecimalPlain(time);
      }
    }
  }

  // ---------------------------------------------------------------- a line behind any text

  /** A line behind a tail is read as its command, and spoils nothing. When the separator is still in
      the read that begins with the tail, the tail must be harmless and all must fit that read;
      otherwise the next read starts within the time stamp and must hold the rest. A tail with a NUL
      hides what follows it in its own read. */
  predicate AppendsWhole(tail: string, it: Item) {
    && '\n' !in it.cmd
    && if |tail| + |Decimal(it.time)| < CHUNK
       then '\0' !in tail && ';' !in tail && |tail| + |Line(it)| <= CHUNK + 1
       else ('\0' in tail || ';' !in tail) && |tail| + |Line(it)| <= 2 * CHUNK + 1
  }

  lemma HiddenChunk(tail: string, more: string)
    requires '\0' in tail
    ensures CommandsIn(tail + more) == CommandsIn(tail)
  {
    FindIs(tail + more, '\0', Find(tail, '\0'));
    assert UpTo(tail + more, '\0') == UpTo(tail, '\0');
  }

  lemma HiddenLine(tail: string, it: Item)
    requires '\0' in tail && '\n' !in tail && '\n' !in it.cmd && |tail| + |Line(it)| <= CHUNK
    ensures FileCommands(tail + Line(it)) == CommandsIn(tail)
  {
    var text := tail + Line(it);
    DecimalPlain(it.time);
    JoinedLine(tail, Decimal(it.time), it.cmd);
    ReadOneLine(tail + Decimal(it.time), it.cmd);
    OneChunk(text);
    HiddenChunk(tail, Line(it));
  }

  lemma SplitAtSeparator(tail: string) returns (stamp: string, part: string)
    requires '\0' !in tail && '\n' !in tail && ';' in tail
    ensures tail == stamp + ";" + part && Plain(stamp) && '\0' !in part && '\n' !in part
  {
    var sep := Find(tail, ';');
    stamp, part := tail[..sep], tail[sep + 1..];
  }

  /** A command that was complete becomes another when its line goes on. */
  lemma SpoiledChunk(tail: string, more: CString)
    requires '\0' !in tail && '\n' !in tail && ';' in tail && more != "" && more[0] != '\n'
    ensures |CommandsIn(tail + more)| == |CommandsIn(tail)| == 1
    ensures CommandsIn(tail + more)[0] != CommandsIn(tail)[0]
  {
    var stamp, part := SplitAtSeparator(tail);
    ChunkOfLine(stamp, part);
    ChunkOfLine(stamp, part + more);
    Regroup(stamp + ";", part, more);
    FindIs(part, '\n', |part|);
    FindBeyond(part, more, '\n');
    assert |UpTo(part + more, '\n')| > |UpTo(part, '\n')|;
  }

  /** Tail and line in one read are one command, which is not the one written. */
  lemma SpoiledWhole(tail: string, it: Item)
    requires '\0' !in tail && '\n' !in tail && ';' in tail && '\n' !in it.cmd && |tail| + |Line(it)| <= CHUNK + 1
    ensures var cs := FileCommands(tail + Line(it)); cs != [] && cs[|cs| - 1] != it.cmd
  {
    var stamp, part := SplitAtSeparator(tail);
    DecimalPlain(it.time);
    var cmd := part + Decimal(it.time) + ";" + it.cmd;
    assert tail + Line(it) == LineOf(stamp, cmd);
    StampedLine(stamp, cmd);
  }

  lemma SameTail<T>(a: seq<T>, b: seq<T>, c: seq<T>)
    ensures a + b == a + c <==> b == c
  {
    if a + b == a + c {
      assert b == (a + b)[|a|..] && c == (a + c)[|a|..];
    }
  }

  lemma NotInConcat(a: string, b: string, c: char)
    requires c !in a && c !in b
    ensures c !in a + b
  {}

  lemma CutStamp(tail: string, s: string, t: string, cmd: string)
    ensures tail + LineOf(s + t, cmd) == (tail + s) + LineOf(t, cmd)
  {
    assert s + t + ";" == s + (t + ";");
    assert s + (t + ";") + cmd == s + (t + ";" + cmd);
    assert LineOf(s + t, cmd) == s + LineOf(t, cmd);
    Regroup(tail, s, LineOf(t, cmd));
  }

  /** The read that begins with the tail ends within the time stamp of the line, behind `s`. */
  lemma StampCut(tail: string, s: string, t: string, cmd: CString)
    requires '\n' !in tail && '\n' !in s && |tail| + |s| == CHUNK
    ensures FileCommands(tail + LineOf(s + t, cmd)) == CommandsIn(tail + s) + FileCommands(LineOf(t, cmd))
  {
    NotInConcat(tail, s, '\n');
    CutStamp(tail, s, t, cmd);
  }

  lemma PlainParts(stamp: string, n: nat) returns (s: string, t: string)
    requires Plain(stamp) && n <= |stamp|
    ensures stamp == s + t && |s| == n && Plain(s) && Plain(t)
  {
    s, t := stamp[..n], stamp[n..];
  }

  lemma CutExactly(tail: string, stamp: string, cmd: CString)
    requires Plain(stamp) && 0 < |stamp| < CHUNK && |tail| < CHUNK && '\n' !in tail && |tail| + |stamp| >= CHUNK
    requires '\n' !in cmd
    ensures FileCommands(tail + LineOf(stamp, cmd)) == CommandsIn(tail) + [cmd] <==>
              ('\0' in tail || ';' !in tail) && |tail| + |LineOf(stamp, cmd)| <= 2 * CHUNK + 1
  {
    var s, t := PlainParts(stamp, CHUNK - |tail|);
    StampCut(tail, s, t, cmd);
    StampedLine(t, cmd);
    var rest := FileCommands(LineOf(t, cmd));
    if '\0' in tail {
      HiddenChunk(tail, s);
    } else if ';' in tail {
      SpoiledChunk(tail, s);
      assert (CommandsIn(tail + s) + rest)[0] != (CommandsIn(tail) + [cmd])[0];
    } else {
      NotInConcat(tail, s, ';');
    }
    SameTail(CommandsIn(tail), rest, [cmd]);
  }

  lemma JoinedLine(tail: string, stamp: string, cmd: string)
    ensures tail + LineOf(stamp, cmd) == LineOf(tail + stamp, cmd)
  {
    assert tail + (stamp + ";" + cmd + "\n") == tail + stamp + ";" + cmd + "\n";
  }

  /** The read that begins with the tail holds the separator of the line. */
  lemma SeparatorRead(tail: string, stamp: string, cmd: CString) returns (more: CString, rest: string)
    requires Plain(stamp) && stamp != "" && '\n' !in tail && |tail| + |stamp| < CHUNK && '\n' !in cmd
    ensures more != "" && more[0] != '\n' && |rest| <= |cmd| + 1 && Terminated(rest)
    ensures FileCommands(tail + LineOf(stamp, cmd)) == CommandsIn(tail + more) + FileCommands(rest)
  {
    var line := LineOf(stamp, cmd);
    JoinedLine(tail, stamp, cmd);
    ReadOneLine(tail + stamp, cmd);
    assert line[0] == stamp[0] && line[|line| - 1] == '\n';
    more, rest := ReadLine(tail, line);
  }

  lemma LineParts(line: CString, n: nat) returns (more: CString, rest: string)
    requires 0 < n <= |line| && line[|line| - 1] == '\n'
    ensures line == more + rest && |more| == n && more[0] == line[0] && Terminated(rest)
  {
    more, rest := line[..n], line[n..];
  }

  /** The first read of a tail and a line of which it takes some part. */
  lemma ReadLine(tail: string, line: CString) returns (more: CString, rest: string)
    requires |tail| < ReadLength(tail + line) && line != "" && line[|line| - 1] == '\n'
    ensures more != "" && more[0] == line[0] && Terminated(rest)
    ensures |rest| == |tail| + |line| - ReadLength(tail + line)
    ensures FileCommands(tail + line) == CommandsIn(tail + more) + FileCommands(rest)
  {
    more, rest := LineParts(line, ReadLength(tail + line) - |tail|);
    Regroup(tail, more, rest);
  }

  lemma HiddenStamp(tail: string, stamp: string, cmd: CString)
    requires Plain(stamp) && stamp != "" && '\n' !in tail && |tail| + |stamp| < CHUNK && '\n' !in cmd
    requires '\0' in tail
    ensures FileCommands(tail + LineOf(stamp, cmd)) != CommandsIn(tail) + [cmd]
  {
    var more, rest := SeparatorRead(tail, stamp, cmd);
    HiddenChunk(tail, more);
    SameTail(CommandsIn(tail), FileCommands(rest), [cmd]);
    if FileCommands(rest) == [cmd] {
      CommandsBounded(rest, cmd);
    }
  }

  lemma SpoiledCommand(tail: string, stamp: string, cmd: CString)
    requires Plain(stamp) && stamp != "" && '\n' !in tail && |tail| + |stamp| < CHUNK && '\n' !in cmd
    requires '\0' !in tail && ';' in tail
    ensures FileCommands(tail + LineOf(stamp, cmd)) != CommandsIn(tail) + [cmd]
  {
    var more, rest := SeparatorRead(tail, stamp, cmd);
    SpoiledChunk(tail, more);
    assert (CommandsIn(tail + more) + FileCommands(rest))[0] != (CommandsIn(tail) + [cmd])[0];
  }

  lemma JoinedExactly(tail: string, stamp: string, cmd: CString)
    requires Plain(stamp) && stamp != "" && '\n' !in tail && |tail| + |stamp| < CHUNK && '\n' !in cmd
    ensures FileCommands(tail + LineOf(stamp, cmd)) == CommandsIn(tail) + [cmd] <==>
              '\0' !in tail && ';' !in tail && |tail| + |LineOf(stamp, cmd)| <= CHUNK + 1
  {
    if '\0' in tail {
      HiddenStamp(tail, stamp, cmd);
    } else if ';' in tail {
      SpoiledCommand(tail, stamp, cmd);
    } else {
      StampedLine(tail + stamp, cmd);
      JoinedLine(tail, stamp, cmd);
    }
  }

  lemma TailLine(tail: string, it: Item)
    requires '\n' !in tail && |tail| < CHUNK
    ensures FileCommands(tail + Line(it)) == CommandsIn(tail) + [it.cmd] <==> AppendsWhole(tail, it)
  {
    DecimalPlain(it.time);
    if '\n' in it.cmd {
      if FileCommands(tail + Line(it)) == CommandsIn(tail) + [it.cmd] {
        assert it.cmd in CommandsIn(tail) + [it.cmd];
        CommandsBounded(tail + Line(it), it.cmd);
      }
    } else if |tail| + |Decimal(it.time)| < CHUNK {
      JoinedExactly(tail, Decimal(it.time), it.cmd);
    } else {
      CutExactly(tail, Decimal(it.time), it.cmd);
    }
  }

  /** Behind any text whatever, a line adds exactly its command to what is read if and only if it
      goes with the tail of the text. */
  lemma LineAppends(a: string, it: Item)
    ensures FileCommands(a + Line(it)) == FileCommands(a) + [it.cmd] <==> AppendsWhole(Tail(a), it)
  {
    FileSplit(a, Line(it));
    FileIs(a);
    Regroup(HeadCommands(a), CommandsIn(Tail(a)), [it.cmd]);
    SameTail(HeadCommands(a), FileCommands(Tail(a) + Line(it)), CommandsIn(Tail(a)) + [it.cmd]);
    TailLine(Tail(a), it);
  }

  /** Behind a file that ends with a newline that is to be readable. */
  lemma WholeBehindNewline(a: string, it: Item)
    requires Terminated(a)
    ensures AppendsWhole(Tail(a), it) <==> Readable(it)
  {
    TerminatedTail(a);
    DecimalPlain(it.time);
  }

  /** A short text of one unfinished line keeps a short command whole exactly when no command is
      in it yet. */
  lemma UnfinishedLine(a: string, it: Item)
    requires 0 < |a| < 500 && '\n' !in a && '\0' !in a && '\n' !in it.cmd && |it.cmd| < 500
    ensures FileCommands(a + Line(it)) == FileCommands(a) + [it.cmd] <==> ';' !in a
  {
    DecimalPlain(it.time);
    LineAppends(a, it);
  }

  /** A file that does not end with a newline and swallows the start of the next command. */
  lemma SwallowedCommand()
    ensures FileCommands("1;a" + Line(Item(2, "b"))) != FileCommands("1;a") + ["b"]
  {
    assert "1;a"[1] == ';';
    UnfinishedLine("1;a", Item(2, "b"));
  }

  // ---------------------------------------------------------------- whole files

  predicate AllReadable(items: seq<Item>) {
    forall i :: 0 <= i < |items| ==> Readable(items[i])
  }

  /** The commands of a file end with the commands of some items if and only if all of these are
      readable; then there are no others. */
  ghost predicate ReadsAs(cs: seq<CString>, items: seq<Item>) {
    && |cs| >= |items|
    && (cs[|cs| - |items|..] == Commands(items) <==> AllReadable(items))
    && (AllReadable(items) ==> cs == Commands(items))
  }

  /** What is written is read back, as far as it is readable. */
  lemma {:induction false} TextCommands(items: seq<Item>)
    ensures Terminated(Text(items)) && ReadsAs(FileCommands(Text(items)), items)
    decreases |items|
  {
    if items != [] {
      var init, it := items[..|items| - 1], items[|items| - 1];
      assert items == init + [it];
      TextCommands(init);
      LineCommands(it);
      FileAppend(Text(init), Line(it));
      ReadsAppend(FileCommands(Text(init)), FileCommands(Line(it)), init, it);
    }
  }

  lemma ReadsAppend(a: seq<CString>, b: seq<CString>, init: seq<Item>, it: Item)
    requires ReadsAs(a, init) && b != []
    requires (b[|b| - 1] == it.cmd <==> Readable(it)) && (Readable(it) ==> b == [it.cmd])
    ensures ReadsAs(a + b, init + [it])
  {
    CommandsAppend(init, it);
    TailAppend(a, b, Commands(init), it.cmd);
    ReadableAppend(init, it);
  }

  lemma ReadableAppend(init: seq<Item>, it: Item)
    ensures AllReadable(init + [it]) <==> AllReadable(init) && Readable(it)
  {
    var all := init + [it];
    if AllReadable(all) {
      assert forall i :: 0 <= i < |init| ==> init[i] == all[i];
      assert all[|init|] == it;
    }
  }

  lemma TailAppend(a: seq<CString>, b: seq<CString>, want: seq<CString>, last: CString)
    requires |a| >= |want| && b != [] && (b[|b| - 1] == last ==> b == [last])
    ensures var cs, n := a + b, |want| + 1;
            cs[|cs| - n..] == want + [last] <==> a[|a| - |want|..] == want && b == [last]
  {
    var cs, n := a + b, |want| + 1;
    var tail := cs[|cs| - n..];
    assert tail[n - 1] == b[|b| - 1];
    if b == [last] {
      assert tail == a[|a| - |want|..] + [last];
      if tail == want + [last] {
        assert a[|a| - |want|..] == tail[..|want|] == want;
      }
    }
  }

  lemma LastNAppend<T>(xs: seq<T>, ys: seq<T>)
    ensures LastN(LastN(xs) + ys) == LastN(xs + ys)
  {}

  lemma TextStep(items: seq<Item>, k: nat)
    requires k < |items|
    ensures Text(items[..k + 1]) == Text(items[..k]) + Line(items[k])
  {
    assert items[..k + 1][..k] == items[..k];
  }

  lemma CommandsAppend(items: seq<Item>, it: Item)
    ensures Commands(items + [it]) == Commands(items) + [it.cmd]
  {}
}
