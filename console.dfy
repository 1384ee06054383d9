/** The debug console: a bounded log, the known command names used for
    completion, the command history with its browsing cursor, and the input
    line. Submitting a line echoes it, records it in the history and either
    runs one of the built-in commands HELP, CLEAR and HISTORY or hands it to
    the player, whose answer is logged. */
module DebugConsole {
  import opened Util
  import opened Text
  import opened MpvNode
  import opened Log
  import opened History
  import opened Edit
  import Completion
  import CommandList

  const BuiltinCommands: seq<string> := ["HELP", "CLEAR", "HISTORY"]

  /** How many of the newest history entries HISTORY lists. */
  const HistoryShown: nat := 10

  /** The player's answer to a command line: success, or the text of its error. */
  datatype HostReply = Success | Failure(message: string)

  /** The two input-line events the console handles: TAB and the arrow keys. */
  datatype EditEvent = CompletionKey | HistoryKey(key: Key)

  // ---------------------------------------------------------------------------
  // What a command logs

  function Infos(texts: seq<string>): (r: seq<LogItem>)
    ensures |r| == |texts|
    ensures forall i :: 0 <= i < |texts| ==> r[i] == Item("info", texts[i])
  {
    seq(|texts|, i requires 0 <= i < |texts| => Item("info", texts[i]))
  }

  /** The echo of a submitted line. */
  function Echo(line: string): LogItem {
    Item("info", "# " + line + "\n")
  }

  /** One HISTORY line: the index right-aligned in three columns, then the entry. */
  function HistoryLine(i: nat, entry: string): string {
    PadLeft(DecimalString(i), 3) + ": " + entry + "\n"
  }

  /** The lines HISTORY logs: the newest ten entries, oldest first, by index. */
  function HistoryTexts(h: seq<string>): (r: seq<string>)
    ensures |r| == Min(|h|, HistoryShown)
  {
    var first := Max(0, |h| - HistoryShown);
    seq(|h| - first, k requires 0 <= k < |h| - first => HistoryLine(first + k, h[first + k]))
  }

  /** The lines HELP logs: the built-in commands, then the player's with their signatures. */
  function HelpTexts(commands: seq<CommandList.Command>): (r: seq<string>)
    ensures |r| == |BuiltinCommands| + 2 + |commands|
  {
    ["Builtin Commands:"] + BuiltinLines() + ["MPV Commands:"] + CommandLines(commands)
  }

  function BuiltinLines(): (r: seq<string>)
    ensures |r| == |BuiltinCommands|
  {
    seq(|BuiltinCommands|, i requires 0 <= i < |BuiltinCommands| => "- " + BuiltinCommands[i])
  }

  function CommandLines(commands: seq<CommandList.Command>): (r: seq<string>)
    ensures |r| == |commands|
  {
    seq(|commands|, i requires 0 <= i < |commands| => "- " + commands[i].name + " " + commands[i].args)
  }

  /** What a line other than CLEAR logs after its echo. */
  function Dispatched(line: string, history: seq<string>, commandList: Node, run: string -> HostReply): (r: seq<LogItem>)
    ensures !EqualsIgnoreCase(line, "HISTORY") ==> |r| >= 1
    ensures forall i :: 0 <= i < |r| ==> |r[i].text| <= MaxLogText
    ensures (exists i :: 0 <= i < |r| && r[i].level != "info") <==>
      !EqualsIgnoreCase(line, "HELP") && !EqualsIgnoreCase(line, "HISTORY") && run(line).Failure?
  {
    if EqualsIgnoreCase(line, "HELP") then Infos(HelpTexts(CommandList.Formatted(commandList)))
    else if EqualsIgnoreCase(line, "HISTORY") then Infos(HistoryTexts(history))
    else match run(line)
      case Success => [Item("info", "[mpv] Success")]
      case Failure(message) =>
        assert [Item("error", message)][0].level != "info";
        [Item("error", message)]
  }

  /** The log after executing `line`; `history` is the history once the line is recorded. */
  function LogAfterExec(items: seq<LogItem>, line: string, history: seq<string>, commandList: Node,
                        run: string -> HostReply, limit: nat): (r: seq<LogItem>)
    ensures |r| <= limit
    ensures r == [] <==> EqualsIgnoreCase(line, "CLEAR") || limit == 0
    ensures !EqualsIgnoreCase(line, "CLEAR") && limit >= 1 ==>
      var batch := [Echo(line)] + Dispatched(line, history, commandList, run);
      r[|r| - 1] == batch[|batch| - 1]
  {
    if EqualsIgnoreCase(line, "CLEAR") then []
    else Append(items, [Echo(line)] + Dispatched(line, history, commandList, run), limit)
  }

  /** Every entry text fits the formatting buffer. */
  predicate Bounded(items: seq<LogItem>) {
    forall i :: 0 <= i < |items| ==> |items[i].text| <= MaxLogText
  }

  lemma AppendBounded(items: seq<LogItem>, entries: seq<LogItem>, limit: nat)
    requires Bounded(items) && Bounded(entries)
    ensures Bounded(Append(items, entries, limit))
  {
    if entries != [] {
      var all := items + entries;
      var r := Append(items, entries, limit);
      forall i | 0 <= i < |r| ensures |r[i].text| <= MaxLogText {
        assert r[i] == all[|all| - |r| + i];
      }
    }
  }

  lemma InfosStep(texts: seq<string>, n: nat)
    requires n < |texts|
    ensures Infos(texts[..n + 1]) == Infos(texts[..n]) + [Item("info", texts[n])]
  {
    assert texts[..n + 1] == texts[..n] + [texts[n]];
  }

  /** Logging texts one batch after another is logging their concatenation. */
  lemma InfosConcat(a: seq<string>, b: seq<string>)
    ensures Infos(a + b) == Infos(a) + Infos(b)
  {
    var l := Infos(a + b);
    var r := Infos(a) + Infos(b);
    assert |l| == |r|;
    forall i | 0 <= i < |l| ensures l[i] == r[i] {
      if i < |a| {
        assert (a + b)[i] == a[i];
      } else {
        assert (a + b)[i] == b[i - |a|];
      }
    }
  }

  /** Logging four batches one after the other is logging their concatenation. */
  lemma AppendInfos4(items: seq<LogItem>, a: seq<string>, b: seq<string>, c: seq<string>, d: seq<string>, limit: nat)
    ensures Append(Append(Append(Append(items, Infos(a), limit), Infos(b), limit), Infos(c), limit), Infos(d), limit)
      == Append(items, Infos(a + b + c + d), limit)
  {
    AppendAppend(items, Infos(a), Infos(b), limit);
    InfosConcat(a, b);
    AppendAppend(items, Infos(a + b), Infos(c), limit);
    InfosConcat(a + b, c);
    AppendAppend(items, Infos(a + b + c), Infos(d), limit);
    InfosConcat(a + b + c, d);
  }

  lemma HistoryTextAt(h: seq<string>, k: nat)
    requires Max(0, |h| - HistoryShown) <= k < |h|
    ensures HistoryTexts(h)[k - Max(0, |h| - HistoryShown)] == HistoryLine(k, h[k])
  {
  }

  /** One more AddLog extends the batch logged so far. */
  lemma LogStep(items: seq<LogItem>, logged: seq<LogItem>, x: LogItem, limit: nat)
    ensures Retain(Append(items, logged, limit) + [x], limit) == Append(items, logged + [x], limit)
  {
    AppendAppend(items, logged, [x], limit);
  }

  // ---------------------------------------------------------------------------
  // Properties of command execution

  /** The built-in names differ from one another ignoring case, so at most one
      of the dispatch branches applies. */
  lemma BuiltinsDistinct(line: string)
    ensures EqualsIgnoreCase(line, "CLEAR") ==> !EqualsIgnoreCase(line, "HELP") && !EqualsIgnoreCase(line, "HISTORY")
    ensures EqualsIgnoreCase(line, "HELP") ==> !EqualsIgnoreCase(line, "HISTORY")
  {
    assert |UpperAll(line)| == |line|;
    assert |UpperAll("CLEAR")| == 5 && |UpperAll("HELP")| == 4 && |UpperAll("HISTORY")| == 7;
  }

  /** Which batch a line logs after its echo. */
  lemma DispatchedCases(line: string, history: seq<string>, commandList: Node, run: string -> HostReply)
    ensures EqualsIgnoreCase(line, "HELP") ==>
      Dispatched(line, history, commandList, run) == Infos(HelpTexts(CommandList.Formatted(commandList)))
    ensures !EqualsIgnoreCase(line, "HELP") && EqualsIgnoreCase(line, "HISTORY") ==>
      Dispatched(line, history, commandList, run) == Infos(HistoryTexts(history))
    ensures !EqualsIgnoreCase(line, "HELP") && !EqualsIgnoreCase(line, "HISTORY") ==>
      Dispatched(line, history, commandList, run) ==
        if run(line).Failure? then [Item("error", run(line).message)] else [Item("info", "[mpv] Success")]
  {
  }

  /** The echo and the batch, logged one after the other. */
  lemma ExecLog(items: seq<LogItem>, line: string, history: seq<string>, commandList: Node,
                run: string -> HostReply, limit: nat)
    requires !EqualsIgnoreCase(line, "CLEAR")
    ensures LogAfterExec(items, line, history, commandList, run, limit) ==
      Append(Append(items, [Echo(line)], limit), Dispatched(line, history, commandList, run), limit)
  {
    AppendAppend(items, [Echo(line)], Dispatched(line, history, commandList, run), limit);
  }

  /** The lines HISTORY logs for a history: one per entry of the newest ten,
      in ascending index order. */
  lemma HistoryBatch(history: seq<string>, line: string, commandList: Node, run: string -> HostReply)
    requires EqualsIgnoreCase(line, "HISTORY")
    ensures var d := Dispatched(line, history, commandList, run);
      var first := Max(0, |history| - HistoryShown);
      && |d| == Min(|history|, HistoryShown)
      && forall k :: 0 <= k < |d| ==> d[k] == Item("info", HistoryLine(first + k, history[first + k]))
  {
    BuiltinsDistinct(line);
    DispatchedCases(line, history, commandList, run);
    var d := Dispatched(line, history, commandList, run);
    var texts := HistoryTexts(history);
    var first := Max(0, |history| - HistoryShown);
    assert d == Infos(texts);
    forall k | 0 <= k < |d|
      ensures d[k] == Item("info", HistoryLine(first + k, history[first + k]))
    {
      assert d[k] == Item("info", texts[k]);
      HistoryTextAt(history, first + k);
    }
  }

  /** The last line HISTORY logs is the HISTORY line itself, just recorded
      as the newest entry. */
  lemma ExecHistoryEndsWithLine(h: seq<string>, line: string, commandList: Node, run: string -> HostReply)
    requires EqualsIgnoreCase(line, "HISTORY")
    ensures var r := Recorded(h, line);
      var d := Dispatched(line, r, commandList, run);
      |d| >= 1 && d[|d| - 1] == Item("info", HistoryLine(|r| - 1, line))
  {
    var r := Recorded(h, line);
    HistoryBatch(r, line, commandList, run);
    var first := Max(0, |r| - HistoryShown);
    var n := Min(|r|, HistoryShown);
    assert first + (n - 1) == |r| - 1;
  }

  /** CLEAR empties the log, the echo logged just before it included. */
  lemma ExecClearEmpties(items: seq<LogItem>, history: seq<string>, line: string, commandList: Node,
                         run: string -> HostReply, limit: nat)
    requires EqualsIgnoreCase(line, "CLEAR")
    ensures LogAfterExec(items, line, history, commandList, run, limit) == []
  {
  }

  /** A line that is not a built-in command is handed to the player, and its
      answer is logged after the echo: "[mpv] Success", or the error text at
      error level. */
  lemma ExecHostLine(items: seq<LogItem>, history: seq<string>, line: string, commandList: Node,
                     run: string -> HostReply, limit: nat)
    requires !EqualsIgnoreCase(line, "CLEAR") && !EqualsIgnoreCase(line, "HELP") && !EqualsIgnoreCase(line, "HISTORY")
    requires limit >= 2
    ensures var log := LogAfterExec(items, line, history, commandList, run, limit);
      && |log| >= 2
      && log[|log| - 2] == Echo(line)
      && log[|log| - 1] == (if run(line).Success? then Item("info", "[mpv] Success") else Item("error", run(line).message))
  {
    var batch := [Echo(line)] + Dispatched(line, history, commandList, run);
    AppendKeepsNewest(items, batch, limit);
    var log := Append(items, batch, limit);
    assert log[|log| - 2..] == batch;
    assert log[|log| - 2] == batch[0];
  }

  /** HELP lists the three built-in commands and then one line per named
      command of the player's list, as name and signature. */
  lemma ExecHelpLists(history: seq<string>, line: string, commandList: Node, run: string -> HostReply)
    requires EqualsIgnoreCase(line, "HELP")
    ensures var d := Dispatched(line, history, commandList, run);
      var cmds := CommandList.Formatted(commandList);
      && |d| == 5 + |cmds|
      && d[0] == Item("info", "Builtin Commands:")
      && d[1] == Item("info", "- HELP") && d[2] == Item("info", "- CLEAR") && d[3] == Item("info", "- HISTORY")
      && d[4] == Item("info", "MPV Commands:")
      && forall i :: 0 <= i < |cmds| ==> d[5 + i] == Item("info", "- " + cmds[i].name + " " + cmds[i].args)
  {
    var cmds := CommandList.Formatted(commandList);
    var t := HelpTexts(cmds);
    assert t[1] == "- HELP" && t[2] == "- CLEAR" && t[3] == "- HISTORY";
    forall i | 0 <= i < |cmds| ensures t[5 + i] == "- " + cmds[i].name + " " + cmds[i].args {
    }
  }

  /** Up on a fresh line right after submitting `s` brings `s` back. */
  lemma UpRecallsLast(h: seq<string>, s: string, e: EditState)
    requires |s| < InputBufSize && e.cursor <= |e.buf|
    ensures var r := Recorded(h, s);
      var p := Navigate(-1, |r|, UpArrow);
      p == |r| - 1 && ReplaceAll(e, r[p]) == EditState(s, |s|)
  {
    ReplaceAllResult(e, s);
  }

  // ---------------------------------------------------------------------------
  // The console

  class Console {
    var Items: seq<LogItem>
    var Commands: seq<string>
    var History: seq<string>
    /** -1 is the fresh line; 0 .. |History| - 1 an entry being browsed. */
    var HistoryPos: int
    var InputBuf: string
    var AutoScroll: bool
    var ScrollToBottom: bool
    var CommandInited: bool
    var LogLevel: string
    var LogLimit: int

    ghost predicate Valid()
      reads this
    {
      && LogLimit >= 0
      && -1 <= HistoryPos < |History|
      && |InputBuf| < InputBufSize
      && Bounded(Items)
      && (!CommandInited ==> Commands == [])
      && Unique(History)
    }

    constructor ()
      ensures Valid()
      ensures Items == [] && Commands == [] && History == [] && HistoryPos == -1 && InputBuf == ""
      ensures AutoScroll && !ScrollToBottom && !CommandInited
      ensures LogLevel == "status" && LogLimit == 5000
    {
      Items := [];
      Commands := [];
      History := [];
      HistoryPos := -1;
      InputBuf := "";
      AutoScroll := true;
      ScrollToBottom := false;
      CommandInited := false;
      LogLevel := "status";
      LogLimit := 5000;
    }

    /** Sets the log level and limit; the log itself is cut only by the next AddLog. */
    method Init(level: string, limit: int)
      requires Valid() && limit >= 0
      modifies this
      ensures Valid()
      ensures LogLevel == level && LogLimit == limit
      ensures Items == old(Items) && Commands == old(Commands) && History == old(History)
      ensures HistoryPos == old(HistoryPos) && InputBuf == old(InputBuf) && CommandInited == old(CommandInited)
      ensures AutoScroll == old(AutoScroll) && ScrollToBottom == old(ScrollToBottom)
    {
      LogLevel := level;
      LogLimit := limit;
    }

    /** One-shot seeding of the completion names: the built-in commands, then
        the player's command names in order; once done, later calls change nothing. */
    method InitCommands(commands: seq<CommandList.Command>)
      requires Valid()
      modifies this
      ensures Valid()
      ensures old(CommandInited) ==> Commands == old(Commands)
      ensures !old(CommandInited) ==>
        Commands == BuiltinCommands + seq(|commands|, i requires 0 <= i < |commands| => commands[i].name)
      ensures CommandInited
      ensures Items == old(Items) && History == old(History) && HistoryPos == old(HistoryPos)
      ensures InputBuf == old(InputBuf) && LogLimit == old(LogLimit) && LogLevel == old(LogLevel)
      ensures AutoScroll == old(AutoScroll) && ScrollToBottom == old(ScrollToBottom)
    {
      if CommandInited {
        return;
      }
      var seeded := Commands;
      for k := 0 to |BuiltinCommands|
        invariant seeded == BuiltinCommands[..k]
      {
        seeded := seeded + [BuiltinCommands[k]];
      }
      ghost var names := seq(|commands|, i requires 0 <= i < |commands| => commands[i].name);
      for k := 0 to |commands|
        invariant seeded == BuiltinCommands + names[..k]
      {
        assert names[..k + 1] == names[..k] + [commands[k].name];
        seeded := seeded + [commands[k].name];
      }
      assert names[..|commands|] == names;
      Commands := seeded;
      CommandInited := true;
    }

    method ClearLog()
      requires Valid()
      modifies this
      ensures Valid()
      ensures Items == []
      ensures Commands == old(Commands) && History == old(History) && HistoryPos == old(HistoryPos)
      ensures InputBuf == old(InputBuf) && LogLimit == old(LogLimit) && LogLevel == old(LogLevel)
      ensures CommandInited == old(CommandInited)
      ensures AutoScroll == old(AutoScroll) && ScrollToBottom == old(ScrollToBottom)
    {
      Items := [];
    }

    /** Appends one entry, cut to 1023 characters, then drops the oldest
        entries beyond the limit. */
    method AddLog(level: string, text: string)
      requires Valid()
      modifies this
      ensures Valid()
      ensures Items == Retain(old(Items) + [Item(level, text)], LogLimit)
      ensures Items == Append(old(Items), [Item(level, text)], LogLimit)
      ensures |Items| <= LogLimit
      ensures LogLimit >= 1 ==> Items[|Items| - 1] == Item(level, text)
      ensures Commands == old(Commands) && History == old(History) && HistoryPos == old(HistoryPos)
      ensures InputBuf == old(InputBuf) && LogLimit == old(LogLimit) && LogLevel == old(LogLevel)
      ensures CommandInited == old(CommandInited)
      ensures AutoScroll == old(AutoScroll) && ScrollToBottom == old(ScrollToBottom)
    {
      ghost var all := Items + [Item(level, text)];
      Items := Items + [Item(level, text)];
      if |Items| > LogLimit {
        var offset := |Items| - LogLimit;
        Items := Items[offset..];
      }
      assert Items == Retain(all, LogLimit);
      AppendBounded(old(Items), [Item(level, text)], LogLimit);
    }

    /** The fields no command changes. */
    ghost function Settings(): (seq<string>, int, string, bool, bool)
      reads this
    {
      (Commands, LogLimit, LogLevel, CommandInited, AutoScroll)
    }

    /** Logs each text at info level, in order. */
    method LogInfos(texts: seq<string>)
      requires Valid()
      modifies this
      ensures Valid()
      ensures Items == Append(old(Items), Infos(texts), LogLimit)
      ensures Settings() == old(Settings()) && ScrollToBottom == old(ScrollToBottom)
      ensures History == old(History) && HistoryPos == old(HistoryPos) && InputBuf == old(InputBuf)
    {
      ghost var items0 := Items;
      for k := 0 to |texts|
        invariant Valid() && Settings() == old(Settings()) && ScrollToBottom == old(ScrollToBottom)
        invariant History == old(History) && HistoryPos == old(HistoryPos) && InputBuf == old(InputBuf)
        invariant Items == Append(items0, Infos(texts[..k]), LogLimit)
      {
        InfosStep(texts, k);
        LogStep(items0, Infos(texts[..k]), Item("info", texts[k]), LogLimit);
        AddLog("info", texts[k]);
      }
      assert texts[..|texts|] == texts;
    }

    /** Executes one submitted line. */
    method ExecCommand(line: string, commandList: Node, run: string -> HostReply)
      requires Valid()
      modifies this
      ensures Valid()
      ensures History == Recorded(old(History), line)
      ensures forall j :: 0 <= j < |History| - 1 ==> !EqualsIgnoreCase(History[j], line)
      ensures HistoryPos == -1
      ensures Items == LogAfterExec(old(Items), line, History, commandList, run, LogLimit)
      ensures ScrollToBottom
      ensures Settings() == old(Settings()) && InputBuf == old(InputBuf)
    {
      ghost var items0 := Items;
      EchoAndRecord(line);
      if EqualsIgnoreCase(line, "CLEAR") {
        ClearLog();
      } else {
        ExecLog(items0, line, History, commandList, run, LogLimit);
        Dispatch(line, commandList, run);
      }
      ScrollToBottom := true;
    }

    /** The first steps of ExecCommand: the echo, then the history update
        with the cursor back on the fresh line. */
    method EchoAndRecord(line: string)
      requires Valid()
      modifies this
      ensures Valid()
      ensures Items == Append(old(Items), [Echo(line)], LogLimit)
      ensures History == Recorded(old(History), line) && HistoryPos == -1
      ensures forall j :: 0 <= j < |History| - 1 ==> !EqualsIgnoreCase(History[j], line)
      ensures Settings() == old(Settings()) && InputBuf == old(InputBuf) && ScrollToBottom == old(ScrollToBottom)
    {
      AddLog("info", "# " + line + "\n");
      HistoryPos := -1;
      RecordLine(line);
    }

    /** The built-in commands other than CLEAR, and the hand-over of every
        other line to the player. */
    method Dispatch(line: string, commandList: Node, run: string -> HostReply)
      requires Valid() && !EqualsIgnoreCase(line, "CLEAR")
      modifies this
      ensures Valid()
      ensures Items == Append(old(Items), Dispatched(line, History, commandList, run), LogLimit)
      ensures Settings() == old(Settings()) && ScrollToBottom == old(ScrollToBottom)
      ensures History == old(History) && HistoryPos == old(HistoryPos) && InputBuf == old(InputBuf)
    {
      DispatchedCases(line, History, commandList, run);
      if EqualsIgnoreCase(line, "HELP") {
        ShowHelp(commandList);
      } else if EqualsIgnoreCase(line, "HISTORY") {
        LogInfos(HistoryTexts(History));
      } else {
        RunOnHost(line, run);
      }
    }

    /** The history step of ExecCommand: the backwards search drops the newest
        entry equal to the line ignoring case, then the line is appended. */
    method RecordLine(line: string)
      requires Valid() && HistoryPos == -1
      modifies this
      ensures Valid() && HistoryPos == -1
      ensures History == Recorded(old(History), line)
      ensures forall j :: 0 <= j < |History| - 1 ==> !EqualsIgnoreCase(History[j], line)
      ensures Items == old(Items) && Settings() == old(Settings())
      ensures InputBuf == old(InputBuf) && ScrollToBottom == old(ScrollToBottom)
    {
      ghost var h0 := History;
      var i := |History| - 1;
      while i >= 0
        invariant -1 <= i < |h0|
        invariant History == h0
        invariant forall j :: i < j < |h0| ==> !EqualsIgnoreCase(h0[j], line)
      {
        if EqualsIgnoreCase(History[i], line) {
          assert LastMatch(h0, line) == i;
          History := History[..i] + History[i + 1..];
          break;
        }
        i := i - 1;
      }
      assert LastMatch(h0, line) < 0 ==> History == h0;
      History := History + [line];
      assert History == Recorded(h0, line);
      RecordedUnique(h0, line);
    }

    /** HELP: the built-in commands, then every command of the player's list. */
    method ShowHelp(commandList: Node)
      requires Valid()
      modifies this
      ensures Valid()
      ensures Items == Append(old(Items), Infos(HelpTexts(CommandList.Formatted(commandList))), LogLimit)
      ensures Settings() == old(Settings()) && ScrollToBottom == old(ScrollToBottom)
      ensures History == old(History) && HistoryPos == old(HistoryPos) && InputBuf == old(InputBuf)
    {
      ghost var items0 := Items;
      AddLog("info", "Builtin Commands:");
      assert Infos(["Builtin Commands:"]) == [Item("info", "Builtin Commands:")];
      ListBuiltins();
      AddLog("info", "MPV Commands:");
      assert Infos(["MPV Commands:"]) == [Item("info", "MPV Commands:")];
      var commands := CommandList.FormatCommands(commandList);
      ListCommands(commands);
      AppendInfos4(items0, ["Builtin Commands:"], BuiltinLines(), ["MPV Commands:"], CommandLines(commands), LogLimit);
    }

    /** The loop over the built-in commands of HELP. */
    method ListBuiltins()
      requires Valid()
      modifies this
      ensures Valid()
      ensures Items == Append(old(Items), Infos(BuiltinLines()), LogLimit)
      ensures Settings() == old(Settings()) && ScrollToBottom == old(ScrollToBottom)
      ensures History == old(History) && HistoryPos == old(HistoryPos) && InputBuf == old(InputBuf)
    {
      ghost var items0 := Items;
      ghost var texts := BuiltinLines();
      for k := 0 to |BuiltinCommands|
        invariant Valid() && Settings() == old(Settings()) && ScrollToBottom == old(ScrollToBottom)
        invariant History == old(History) && HistoryPos == old(HistoryPos) && InputBuf == old(InputBuf)
        invariant Items == Append(items0, Infos(texts[..k]), LogLimit)
      {
        var text := "- " + BuiltinCommands[k];
        InfosStep(texts, k);
        LogStep(items0, Infos(texts[..k]), Item("info", text), LogLimit);
        AddLog("info", text);
      }
      assert texts[..|BuiltinCommands|] == texts;
    }

    /** The loop over the player's commands of HELP. */
    method ListCommands(commands: seq<CommandList.Command>)
      requires Valid()
      modifies this
      ensures Valid()
      ensures Items == Append(old(Items), Infos(CommandLines(commands)), LogLimit)
      ensures Settings() == old(Settings()) && ScrollToBottom == old(ScrollToBottom)
      ensures History == old(History) && HistoryPos == old(HistoryPos) && InputBuf == old(InputBuf)
    {
      ghost var items0 := Items;
      ghost var texts := CommandLines(commands);
      for k := 0 to |commands|
        invariant Valid() && Settings() == old(Settings()) && ScrollToBottom == old(ScrollToBottom)
        invariant History == old(History) && HistoryPos == old(HistoryPos) && InputBuf == old(InputBuf)
        invariant Items == Append(items0, Infos(texts[..k]), LogLimit)
      {
        var text := "- " + commands[k].name + " " + commands[k].args;
        InfosStep(texts, k);
        LogStep(items0, Infos(texts[..k]), Item("info", text), LogLimit);
        AddLog("info", text);
      }
      assert texts[..|commands|] == texts;
    }

    /** Any other line: hand it to the player and log the answer. */
    method RunOnHost(line: string, run: string -> HostReply)
      requires Valid()
      modifies this
      ensures Valid()
      ensures Items == Append(old(Items),
        if run(line).Failure? then [Item("error", run(line).message)] else [Item("info", "[mpv] Success")], LogLimit)
      ensures Settings() == old(Settings()) && ScrollToBottom == old(ScrollToBottom)
      ensures History == old(History) && HistoryPos == old(HistoryPos) && InputBuf == old(InputBuf)
    {
      var reply := run(line);
      if reply.Failure? {
        AddLog("error", reply.message);
      } else {
        AddLog("info", "[mpv] Success");
      }
    }

    /** The TAB and arrow-key callback on the input line; `cursor` is the
        toolkit's cursor position and the new one is returned. */
    method TextEditCallback(event: EditEvent, cursor: nat) returns (newCursor: nat)
      requires Valid() && cursor <= |InputBuf|
      modifies this
      ensures Valid()
      ensures Settings() == old(Settings()) && History == old(History) && ScrollToBottom == old(ScrollToBottom)
      ensures newCursor <= |InputBuf|
      ensures event.CompletionKey? ==>
        var o := Completion.Complete(EditState(old(InputBuf), cursor), Commands);
        && EditState(InputBuf, newCursor) == o.edit
        && Items == Append(old(Items), Infos(o.lines), LogLimit)
        && HistoryPos == old(HistoryPos)
      ensures event.HistoryKey? ==>
        var p := Navigate(old(HistoryPos), |History|, event.key);
        && HistoryPos == p
        && Items == old(Items)
        && (p == old(HistoryPos) ==> InputBuf == old(InputBuf) && newCursor == cursor)
        && (p != old(HistoryPos) ==>
              EditState(InputBuf, newCursor) == ReplaceAll(EditState(old(InputBuf), cursor), if p >= 0 then History[p] else ""))
    {
      match event {
        case CompletionKey =>
          var o := Completion.CompleteLine(EditState(InputBuf, cursor), Commands);
          LogInfos(o.lines);
          InputBuf := o.edit.buf;
          newCursor := o.edit.cursor;
        case HistoryKey(key) =>
          var e := EditState(InputBuf, cursor);
          var prev := HistoryPos;
          HistoryPos := Navigate(HistoryPos, |History|, key);
          if prev != HistoryPos {
            var entry := if HistoryPos >= 0 then History[HistoryPos] else "";
            e := DeleteChars(e, 0, |e.buf|);
            e := InsertChars(e, 0, entry);
          }
          InputBuf := e.buf;
          newCursor := e.cursor;
      }
    }

    /** Enter on the input line: the line trimmed of blanks is executed unless
        nothing is left, and the line is cleared either way. */
    method Submit(commandList: Node, run: string -> HostReply)
      requires Valid()
      modifies this
      ensures Valid()
      ensures InputBuf == ""
      ensures var s := TrimBlanks(old(InputBuf));
        && (s == "" ==> Items == old(Items) && History == old(History) && HistoryPos == old(HistoryPos)
                         && ScrollToBottom == old(ScrollToBottom))
        && (s != "" ==> History == Recorded(old(History), s) && HistoryPos == -1 && ScrollToBottom
                         && Items == LogAfterExec(old(Items), s, History, commandList, run, LogLimit))
      ensures Settings() == old(Settings())
    {
      var s := TrimBlanks(InputBuf);
      if s != "" {
        ExecCommand(s, commandList, run);
      }
      InputBuf := "";
    }
  }
}
