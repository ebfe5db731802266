/** The command history of a session: a ring in memory over an append-only file. */
module Histories {
  import opened Decimals
  import opened HistoryFiles
  import opened HistoryModel
  import Lexing
  import opened Sequences

  function Slot(start: nat, i: nat): nat {
    if start + i < 1000 then start + i else start + i - 1000
  }

  lemma SlotIs(start: nat, i: nat)
    requires start < 1000 && i <= 1000
    ensures (start + i) % HIST_SIZE == Slot(start, i) < 1000
  {}

  /** `count` entries from `start` on, around the end of the arrays. */
  function Ring(times: seq<Time>, cmds: seq<Lexing.CString>, start: nat, count: nat): seq<Item>
    requires |times| == |cmds| == 1000 && start < 1000 && count <= 1000
  {
    seq(count, i requires 0 <= i < count => Item(times[Slot(start, i)], cmds[Slot(start, i)]))
  }

  /** Writing behind the last entry of a ring that has room, or over the oldest of a full one. */
  lemma RingPut(times: seq<Time>, cmds: seq<Lexing.CString>, start: nat, count: nat, it: Item)
    requires |times| == |cmds| == 1000 && start < 1000 && count <= 1000 && (start != 0 ==> count == 1000)
    ensures var q := Ring(times, cmds, start, count) + [it];
            && (count < 1000 ==> Ring(times[count := it.time], cmds[count := it.cmd], start, count + 1) == LastN(q))
            && (count == 1000 ==>
                  Ring(times[start := it.time], cmds[start := it.cmd], Slot(start, 1), 1000) == LastN(q))
  {}

  class History {
    var times: array<Time>
    var cmds: array<Lexing.CString>
    var count: nat
    var start: nat
    var file: string

    /** A start other than zero means that the ring is full. */
    ghost predicate Valid()
      reads this`times, this`cmds, this`count, this`start
    {
      && times.Length == cmds.Length == 1000
      && count <= 1000 && start < 1000
      && (start != 0 ==> count == 1000)
    }

    /** The entries, oldest first. */
    ghost function Contents(): seq<Item>
      requires Valid()
      reads this`times, this`cmds, this`count, this`start, times, cmds
    {
      Ring(times[..], cmds[..], start, count)
    }

    /** An empty ring over a file. */
    constructor (file: string)
      ensures Valid() && Contents() == [] && this.file == file && fresh(times) && fresh(cmds)
    {
      times := new Time[1000](_ => 0);
      cmds := new Lexing.CString[1000](_ => "");
      count, start := 0, 0;
      this.file := file;
    }

    /** Adds an entry, in place of the oldest one when the ring is full. */
    method Put(it: Item)
      requires Valid()
      modifies this`count, this`start, times, cmds
      ensures Valid() && Contents() == LastN(old(Contents()) + [it])
    {
      ghost var ts, cs := times[..], cmds[..];
      RingPut(ts, cs, start, count, it);
      var idx;
      if count < HIST_SIZE {
        idx := count;
        count := count + 1;
      } else {
        idx := start;
        start := (start + 1) % HIST_SIZE;
        SlotIs(idx, 1);
      }
      cmds[idx] := it.cmd;
      times[idx] := it.time;
      assert times[..] == ts[idx := it.time] && cmds[..] == cs[idx := it.cmd];
    }

    /** The commands in memory, and the file. */
    ghost function Abs(): Memory
      requires Valid()
      reads this, times, cmds
    {
      Memory(Commands(Contents()), file)
    }

    /** Reads the file through a buffer of fixed size and adds what it finds. `stampOf` is whatever
        time is made out of a line. */
    method Load(stampOf: string -> Time)
      requires Valid()
      modifies this`count, this`start, times, cmds
      ensures Valid() && Abs() == Loaded(old(Abs()))
    {
      var rest := file;
      ghost var before, done := Commands(Contents()), [];
      assert before == LastN(before + []);
      while rest != ""
        invariant Valid()
        invariant FileCommands(file) == done + FileCommands(rest)
        invariant Commands(Contents()) == LastN(before + done)
        decreases |rest|
      {
        var chunk := rest[..ReadLength(rest)];
        NextChunk(rest);
        Regroup(done, CommandsIn(chunk), FileCommands(rest[|chunk|..]));
        rest := rest[|chunk|..];
        var line := UpTo(chunk, '\0');
        var sep := Find(line, ';');
        if sep == |line| {
          assert done + CommandsIn(chunk) == done;
          continue;
        }
        var cmd := UpTo(line[sep + 1..], '\n');
        PutCommand(Contents(), Item(stampOf(chunk), cmd), before + done);
        Put(Item(stampOf(chunk), cmd));
        Regroup(before, done, [cmd]);
        done := done + CommandsIn(chunk);
      }
      assert done + [] == done;
    }

    /** Records a command in the ring and at the end of the file; an empty one is ignored. */
    method Save(cmd: Lexing.CString, now: Time)
      requires Valid()
      modifies this, times, cmds
      ensures Valid() && times == old(times) && cmds == old(cmds)
      ensures Abs() == Step(old(Abs()), Op.Save(cmd, now))
    {
      if cmd == "" {
        return;
      }
      ghost var before := Contents();
      Put(Item(now, cmd));
      CommandsAppend(before, Item(now, cmd));
      file := file + Decimal(now) + ";" + cmd + "\n";
      Regroup(old(file), Decimal(now), ";");
      assert file == old(file) + Line(Item(now, cmd));
    }

    /** Forgets the entries in memory, not those in the file. */
    method Clear()
      requires Valid()
      modifies this`count, this`start
      ensures Valid() && Contents() == [] && Abs() == Step(old(Abs()), Op.Clear)
    {
      count, start := 0, 0;
    }

    /** Entry `k`, counted from the oldest. */
    method Entry(k: nat) returns (it: Item)
      requires Valid() && k < count
      ensures it == Contents()[k]
    {
      var index := (start + k) % HIST_SIZE;
      SlotIs(start, k);
      it := Item(times[index], cmds[index]);
    }

    /** The commands as they are listed. */
    method List() returns (out: seq<Lexing.CString>)
      requires Valid()
      ensures out == Commands(Contents())
    {
      out := [];
      for i := 0 to count
        invariant |out| == i && forall k :: 0 <= k < i ==> out[k] == Contents()[k].cmd
      {
        var it := Entry(i);
        out := out + [it.cmd];
      }
    }

    /** Rewrites the file with the entries of a full ring, oldest first. */
    method Trim()
      requires Valid()
      modifies this`file
      ensures Valid() && Contents() == old(Contents()) && file == Trimmed(Contents(), old(file))
    {
      if count < HIST_SIZE {
        return;
      }
      var text := "";
      ghost var items := Contents();
      for i := start to HIST_SIZE + start
        invariant text == Text(items[..i - start])
      {
        var it := Entry(i - start);
        TextStep(items, i - start);
        text := text + Line(it);
      }
      assert items[..1000] == items;
      file := text;
    }
  }

  /** Any session over the ring does what the queue model says. */
  method Session(file: string, ops: seq<Op>, stampOf: string -> Time) returns (h: History)
    ensures h.Valid() && h.Abs() == After(file, ops)
  {
    h := new History(file);
    h.Load(stampOf);
    for n := 0 to |ops|
      invariant h.Valid() && fresh(h) && fresh(h.times) && fresh(h.cmds)
      invariant h.Abs() == After(file, ops[..n])
    {
      assert ops[..n + 1][..n] == ops[..n];
      match ops[n]
      case Save(cmd, now) => h.Save(cmd, now);
      case Clear => h.Clear();
      case Load => h.Load(stampOf);
    }
    assert ops[..|ops|] == ops;
  }
}
