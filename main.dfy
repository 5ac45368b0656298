/** The console front end's session object and command base class
    (deluge/ui/console/main.py): the non-exiting option parser, the command
    base class's tokenising step, the start-up decision between interactive
    and batch mode, and the `ConsoleUI` session with its torrent list, its
    active screen, its event log and the event loop's reader registration. */
module ConsoleMain {
  import opened PyStr

  datatype Option<T> = None | Some(value: T)

  /** A command object, an instance of a subclass of `BaseCommand`: its
      docstring, its usage line, the aliases it declares and whether it may
      only be run from the interactive console. */
  datatype Command = Command(doc: string, usage: string, aliases: seq<string>, interactiveOnly: bool)

  // ---------------------------------------------------------------------
  // OptionParser: exit() only raises a flag, error() raises an exception

  /** The exception `OptionParser.error` raises instead of exiting. */
  datatype ParserException = ParserException(message: string)

  /** The command parser. `exitRequested` is the `_exit` flag it sets on the
      parsed values, `printed` the messages it wrote to standard output. */
  class OptionParser {
    var exitRequested: bool
    var printed: seq<string>

    constructor ()
      ensures !exitRequested && printed == []
    {
      exitRequested := false;
      printed := [];
    }

    /** `exit` does not end the process: whatever the status, it only marks
        the values as exited and prints a non-empty message. */
    method Exit(status: int, msg: Option<string>)
      modifies this
      ensures exitRequested
      ensures printed == old(printed) + (if msg.Some? && msg.value != "" then [msg.value] else [])
    {
      exitRequested := true;
      if msg.Some? && msg.value != "" {
        printed := printed + [msg.value];
      }
    }

    /** `error` never prints and never exits: it raises an exception that
        carries the message, leaving the parser as it was. */
    method Error(msg: string) returns (e: ParserException)
      ensures e.message == msg
    {
      e := ParserException(msg);
    }
  }

  // ---------------------------------------------------------------------
  // BaseCommand

  /** The name `BaseCommand` reports for itself. */
  function Name(): (n: string)
    ensures n == "base"
  {
    "base"
  }

  /** `BaseCommand.complete`: the default completer offers no candidates,
      whatever the text. */
  function Complete(text: string): (candidates: seq<string>)
    ensures |candidates| == 0
  {
    []
  }

  /** Number of occurrences of `c` in `t`. */
  function Count(t: string, c: char): nat {
    if |t| == 0 then 0 else (if t[0] == c then 1 else 0) + Count(t[1..], c)
  }

  /** `t` with every `c` removed. */
  function Without(t: string, c: char): string {
    if |t| == 0 then "" else (if t[0] == c then "" else [t[0]]) + Without(t[1..], c)
  }

  /** `text.replace('\\', '\\\\')`: every backslash doubled. */
  function EscapeBackslashes(t: string): (r: string)
    ensures |r| == |t| + Count(t, '\\')
  {
    if |t| == 0 then ""
    else (if t[0] == '\\' then "\\\\" else [t[0]]) + EscapeBackslashes(t[1..])
  }

  /** Reads a doubled backslash back as one: the inverse of the escaping. */
  function UnescapeBackslashes(r: string): string
    decreases |r|
  {
    if |r| == 0 then ""
    else if |r| >= 2 && r[0] == '\\' && r[1] == '\\' then "\\" + UnescapeBackslashes(r[2..])
    else [r[0]] + UnescapeBackslashes(r[1..])
  }

  /** The escaping loses nothing: undoing it gives back the text. */
  lemma {:induction false} EscapeRoundTrip(t: string)
    ensures UnescapeBackslashes(EscapeBackslashes(t)) == t
  {
    if |t| > 0 {
      EscapeRoundTrip(t[1..]);
      var e := EscapeBackslashes(t);
      if t[0] == '\\' {
        assert e == "\\\\" + EscapeBackslashes(t[1..]);
        assert e[2..] == EscapeBackslashes(t[1..]);
      } else {
        assert e == [t[0]] + EscapeBackslashes(t[1..]);
        assert e[1..] == EscapeBackslashes(t[1..]);
      }
      assert [t[0]] + t[1..] == t;
    }
  }

  /** The escaping touches backslashes only: every other character stays,
      in order. */
  lemma {:induction false} EscapeKeepsOtherCharacters(t: string)
    ensures Without(EscapeBackslashes(t), '\\') == Without(t, '\\')
  {
    if |t| > 0 {
      EscapeKeepsOtherCharacters(t[1..]);
      WithoutAppend(if t[0] == '\\' then "\\\\" else [t[0]], EscapeBackslashes(t[1..]), '\\');
    }
  }

  lemma {:induction false} WithoutAppend(a: string, b: string, c: char)
    ensures Without(a + b, c) == Without(a, c) + Without(b, c)
  {
    if |a| > 0 {
      assert (a + b)[0] == a[0];
      assert (a + b)[1..] == a[1..] + b;
      WithoutAppend(a[1..], b, c);
    } else {
      assert a + b == b;
    }
  }

  /** Text without backslashes is left as it is. */
  lemma {:induction false} EscapeWithoutBackslashes(t: string)
    ensures '\\' !in t ==> EscapeBackslashes(t) == t
  {
    if |t| > 0 && '\\' !in t {
      EscapeWithoutBackslashes(t[1..]);
      assert [t[0]] + t[1..] == t;
    }
  }

  /** `BaseCommand.split`: on Windows backslashes are doubled before the
      text is handed to the shell-style tokeniser `shlexSplit`. */
  function SplitCommandLine(text: string, windows: bool, shlexSplit: string -> seq<string>): (tokens: seq<string>)
    ensures windows ==> tokens == shlexSplit(EscapeBackslashes(text))
    ensures !windows || '\\' !in text ==> tokens == shlexSplit(text)
  {
    if windows then
      EscapeWithoutBackslashes(text);
      shlexSplit(EscapeBackslashes(text))
    else shlexSplit(text)
  }

  // ---------------------------------------------------------------------
  // Start-up: the batch branch of ConsoleUI.__init__

  /** The daemon connection tuple: address, port, user name, password. */
  datatype Daemon = Daemon(host: Option<string>, port: Option<int>, user: Option<string>, password: Option<string>)

  /** The four `None`s passed when no daemon tuple was given. */
  const NoDaemon: Daemon := Daemon(None, None, None, None)

  const NoCommandsMessage: string := "Sorry, couldn't find any commands"
  const WindowsModeMessage: string := "Deluge-console does not run in interactive mode on Windows."

  /** What `__init__` goes on to do. `Execute` is the call
      `Commander(cmds).exec_args(line, *target)` followed by the event loop. */
  datatype Launch =
    | Curses
    | WindowsNotice
    | NoCommands
    | Execute(line: string, target: Daemon)

  /** The start-up decision: no positional arguments means interactive mode
      (a curses session, or on Windows a notice); otherwise the first
      argument is the command line, which needs a non-empty command table and
      is run against the daemon tuple, or four `None`s when there is none. */
  function LaunchOf(args: seq<string>, cmds: map<string, Command>, daemon: Option<Daemon>, windows: bool): (l: Launch)
    ensures l.Curses? <==> args == [] && !windows
    ensures l.WindowsNotice? <==> args == [] && windows
    ensures l.NoCommands? <==> args != [] && |cmds| == 0
    ensures l.Execute? <==> args != [] && |cmds| > 0
    ensures l.Execute? ==> l.line == args[0] && l.target == (if daemon.Some? then daemon.value else NoDaemon)
  {
    if args != [] then
      if |cmds| == 0 then NoCommands
      else Execute(args[0], if daemon.Some? then daemon.value else NoDaemon)
    else if windows then WindowsNotice
    else Curses
  }

  /** Batch mode runs exactly one command line: arguments after the first
      have no effect on the start-up. */
  lemma LaunchIgnoresLaterArguments(args: seq<string>, cmds: map<string, Command>, daemon: Option<Daemon>, windows: bool)
    requires args != []
    ensures LaunchOf(args, cmds, daemon, windows) == LaunchOf([args[0]], cmds, daemon, windows)
  {
  }

  // ---------------------------------------------------------------------
  // ConsoleUI

  /** Whether a screen is the legacy full-screen mode or another mode. */
  datatype ScreenKind = Legacy | OtherMode

  /** A screen object. `id` stands for object identity; `hasNameLookup`
      says whether the screen has a `get_torrent_name` of its own. */
  datatype Screen = Screen(id: nat, kind: ScreenKind, hasNameLookup: bool)

  /** The answer of a query that the console either hands to the legacy
      screen or answers from its own state. `NoTorrentList` is the
      `AttributeError` of a lookup made before `start` created the torrent
      list. */
  datatype Reply<T> = Forwarded | Answer(value: T) | NoTorrentList

  /** Progress of `start`'s two chained remote calls in batch mode.
      `Started` is the state in which `started_deferred` has fired;
      `Failed` the state in which the status callback raised. */
  datatype StartPhase = Idle | AwaitingSessionState | AwaitingStatus(requested: seq<string>) | Started | Failed

  /** One snapshot of every field of a `ConsoleUI`. */
  datatype Snapshot = Snapshot(
    interactive: bool, commands: map<string, Command>, launch: Launch,
    events: seq<string>, hasTorrentList: bool, torrents: seq<(string, string)>,
    screen: Option<Screen>, statusbarScreen: Option<Screen>, readers: set<Screen>,
    screenWrites: seq<string>, stdout: seq<string>, phase: StartPhase)

  /** Whether torrent `t` (id, name) matches the query `s`. */
  predicate Matches(t: (string, string), s: string) {
    StartsWith(t.0, s) || StartsWith(t.1, s)
  }

  /** The ids of the torrents that match `s`, in list order. */
  function MatchingIds(ts: seq<(string, string)>, s: string): seq<string> {
    if |ts| == 0 then []
    else MatchingIds(ts[..|ts| - 1], s) + (if Matches(ts[|ts| - 1], s) then [ts[|ts| - 1].0] else [])
  }

  /** The ids of all torrents, in list order. */
  function Ids(ts: seq<(string, string)>): (ids: seq<string>)
    ensures |ids| == |ts|
  {
    seq(|ts|, i requires 0 <= i < |ts| => ts[i].0)
  }

  /** The name of the first torrent whose id is `id`. */
  function NameOf(ts: seq<(string, string)>, id: string): Option<string> {
    if |ts| == 0 then None
    else if ts[0].0 == id then Some(ts[0].1)
    else NameOf(ts[1..], id)
  }

  /** The `(id, status["name"])` pairs the status callback appends: one per
      entry, stopping at the first entry without a name, where the lookup
      raises. */
  function NamedPairs(status: seq<(string, map<string, string>)>): seq<(string, string)> {
    if |status| == 0 then []
    else if "name" in status[0].1 then [(status[0].0, status[0].1["name"])] + NamedPairs(status[1..])
    else []
  }

  /** Unfolds `NamedPairs` at position `i` of the status list. */
  lemma NamedPairsAt(status: seq<(string, map<string, string>)>, i: nat)
    requires i < |status|
    ensures "name" in status[i].1 ==>
              NamedPairs(status[i..]) == [(status[i].0, status[i].1["name"])] + NamedPairs(status[i + 1..])
    ensures "name" !in status[i].1 ==> NamedPairs(status[i..]) == []
  {
    assert status[i..][0] == status[i];
    assert status[i..][1..] == status[i + 1..];
  }

  /** The console session. `readers` is the event loop's reader
      registration, `screenWrites` the text handed to the legacy screen's
      `write`, `stdout` the lines printed to standard output. */
  class ConsoleUI {
    var interactive: bool
    var commands: map<string, Command>
    var launch: Launch
    var events: seq<string>
    var hasTorrentList: bool
    var torrents: seq<(string, string)>
    var screen: Option<Screen>
    var statusbarScreen: Option<Screen>
    var readers: set<Screen>
    var screenWrites: seq<string>
    var stdout: seq<string>
    var phase: StartPhase

    function State(): Snapshot
      reads this
    {
      Snapshot(interactive, commands, launch, events, hasTorrentList, torrents, screen, statusbarScreen,
               readers, screenWrites, stdout, phase)
    }

    /** `__init__`, up to the point where the event loop takes over. With
        no arguments and not on Windows it runs `run` on the connection
        manager screen `first`. */
    constructor (args: seq<string>, cmds: map<string, Command>, daemon: Option<Daemon>, windows: bool, first: Screen)
      ensures launch == LaunchOf(args, cmds, daemon, windows)
      ensures interactive <==> args == []
      ensures commands == cmds && events == [] && !hasTorrentList && screenWrites == [] && phase == Idle
      ensures stdout == (if launch.NoCommands? then [NoCommandsMessage]
                         else if launch.WindowsNotice? then [WindowsModeMessage] else [])
      ensures launch.Curses? ==> screen == Some(first) && readers == {first} && statusbarScreen == None
      ensures !launch.Curses? ==> screen == None && readers == {} && statusbarScreen == None
    {
      interactive := args == [];
      commands := cmds;
      var l := LaunchOf(args, cmds, daemon, windows);
      launch := l;
      events := [];
      hasTorrentList := false;
      torrents := [];
      screen := None;
      statusbarScreen := None;
      readers := {};
      screenWrites := [];
      phase := Idle;
      stdout := if l.NoCommands? then [NoCommandsMessage]
                else if l.WindowsNotice? then [WindowsModeMessage] else [];
      new;
      if launch.Curses? {
        Run(first);
      }
    }

    /** `run`: makes `first` the screen, gives the session fresh status bars
        and registers the screen as a reader of the event loop. */
    method Run(first: Screen)
      modifies this
      ensures State() == old(State()).(screen := Some(first), statusbarScreen := None,
                                       readers := old(readers) + {first})
    {
      statusbarScreen := None;
      screen := Some(first);
      readers := readers + {first};
    }

    /** `start`: creates an empty torrent list; in batch mode it also asks
        the daemon for its session state. */
    method Start()
      modifies this
      ensures State() == old(State()).(hasTorrentList := true, torrents := [],
                                       phase := if interactive then old(phase) else AwaitingSessionState)
    {
      hasTorrentList := true;
      torrents := [];
      if !interactive {
        phase := AwaitingSessionState;
      }
    }

    /** The session state callback: asks for the name of every torrent id
        the daemon reported. */
    method OnSessionState(result: seq<string>)
      requires phase == AwaitingSessionState
      modifies this
      ensures State() == old(State()).(phase := AwaitingStatus(result))
    {
      phase := AwaitingStatus(result);
    }

    /** The torrent status callback: appends one `(id, name)` pair per status
        entry, in the order the entries come, and fires `started_deferred`
        only once every pair is in. An entry without a name raises, leaving
        the pairs before it appended and the deferred unfired. */
    method OnTorrentsStatus(status: seq<(string, map<string, string>)>)
      requires phase.AwaitingStatus?
      modifies this
      ensures State() == old(State()).(torrents := old(torrents) + NamedPairs(status),
                                       phase := if forall i :: 0 <= i < |status| ==> "name" in status[i].1 then Started else Failed)
    {
      var i := 0;
      var raised := false;
      while i < |status|
        invariant 0 <= i <= |status|
        invariant forall j :: 0 <= j < i ==> "name" in status[j].1
        invariant old(torrents) + NamedPairs(status) == torrents + NamedPairs(status[i..])
        invariant !raised
        modifies this`torrents
      {
        var (tid, fields) := status[i];
        NamedPairsAt(status, i);
        if "name" !in fields {
          raised := true;
          break;
        }
        torrents := torrents + [(tid, fields["name"])];
        i := i + 1;
      }
      phase := if raised then Failed else Started;
    }

    /** `match_torrent`: the legacy screen answers for itself; otherwise the
        ids of the torrents whose id or name starts with `s`, which needs the
        list `start` creates. */
    method MatchTorrent(s: string) returns (r: Reply<seq<string>>)
      requires interactive ==> screen.Some?
      ensures r.Forwarded? <==> interactive && screen.value.kind == Legacy
      ensures r.NoTorrentList? <==> !(interactive && screen.value.kind == Legacy) && !hasTorrentList
      ensures r.Answer? ==> r.value == MatchingIds(torrents, s)
    {
      if interactive && screen.value.kind == Legacy {
        return Forwarded;
      }
      if !hasTorrentList {
        return NoTorrentList;
      }
      var ret := [];
      var i := 0;
      while i < |torrents|
        invariant 0 <= i <= |torrents|
        invariant ret == MatchingIds(torrents[..i], s)
      {
        var (tid, name) := torrents[i];
        if StartsWith(tid, s) || StartsWith(name, s) {
          ret := ret + [tid];
        }
        assert torrents[..i + 1][..i] == torrents[..i];
        i := i + 1;
      }
      assert torrents[..i] == torrents;
      return Answer(ret);
    }

    /** `get_torrent_name`: a screen with its own lookup answers for itself;
        otherwise the name of the first torrent with that id, if any, which
        needs the list `start` creates. */
    method GetTorrentName(id: string) returns (r: Reply<Option<string>>)
      requires interactive ==> screen.Some?
      ensures r.Forwarded? <==> interactive && screen.value.hasNameLookup
      ensures r.NoTorrentList? <==> !(interactive && screen.value.hasNameLookup) && !hasTorrentList
      ensures r.Answer? ==> r.value == NameOf(torrents, id)
    {
      if interactive && screen.value.hasNameLookup {
        return Forwarded;
      }
      if !hasTorrentList {
        return NoTorrentList;
      }
      var i := 0;
      while i < |torrents|
        invariant 0 <= i <= |torrents|
        invariant NameOf(torrents, id) == NameOf(torrents[i..], id)
      {
        var (tid, name) := torrents[i];
        if id == tid {
          return Answer(Some(name));
        }
        assert torrents[i..][1..] == torrents[i + 1..];
        i := i + 1;
      }
      return Answer(None);
    }

    /** `set_batch_write`: only the legacy screen has batch writing; any other
        screen gets `None`. */
    method SetBatchWrite(batch: bool) returns (r: Reply<()>)
      requires interactive ==> screen.Some?
      ensures r.Forwarded? <==> interactive && screen.value.kind == Legacy
      ensures !r.Forwarded? ==> r == Answer(())
    {
      if interactive && screen.value.kind == Legacy {
        return Forwarded;
      }
      return Answer(());
    }

    /** `tab_complete_torrent`: only the legacy screen completes torrents;
        any other screen gets `None`. */
    method TabCompleteTorrent(line: string) returns (r: Reply<()>)
      requires interactive ==> screen.Some?
      ensures r.Forwarded? <==> interactive && screen.value.kind == Legacy
      ensures !r.Forwarded? ==> r == Answer(())
    {
      if interactive && screen.value.kind == Legacy {
        return Forwarded;
      }
      return Answer(());
    }

    /** `set_mode`: the old screen leaves the event loop's readers, `m`
        becomes the screen, the status bars follow it, and `m` joins the
        readers. */
    method SetMode(m: Screen)
      requires screen.Some?
      modifies this
      ensures State() == old(State()).(screen := Some(m), statusbarScreen := Some(m),
                                       readers := old(readers) - {old(screen.value)} + {m})
      ensures old(readers) == {old(screen.value)} ==> readers == {m}
    {
      readers := readers - {screen.value};
      screen := Some(m);
      statusbarScreen := screen;
      readers := readers + {m};
    }

    /** `write`: into the legacy screen, into the event log for another
        mode, or, in batch mode, to standard output after `render` (encoding
        and colour stripping). */
    method Write(s: string, render: string -> string)
      requires interactive ==> screen.Some?
      modifies this
      ensures old(interactive) && old(screen.value.kind) == Legacy ==>
                State() == old(State()).(screenWrites := old(screenWrites) + [s])
      ensures old(interactive) && old(screen.value.kind) == OtherMode ==>
                State() == old(State()).(events := old(events) + [s])
      ensures !old(interactive) ==> State() == old(State()).(stdout := old(stdout) + [render(s)])
    {
      if interactive {
        if screen.value.kind == Legacy {
          screenWrites := screenWrites + [s];
        } else {
          events := events + [s];
        }
      } else {
        stdout := stdout + [render(s)];
      }
    }
  }

  // ---------------------------------------------------------------------
  // Properties of the torrent list queries

  /** `MatchingIds` lists, in increasing list position, exactly the ids of
      the matching torrents: `idx` gives the position of each. */
  lemma {:induction false} MatchingIdsInOrder(ts: seq<(string, string)>, s: string) returns (idx: seq<nat>)
    ensures |idx| == |MatchingIds(ts, s)|
    ensures forall j :: 0 <= j < |idx| ==>
              idx[j] < |ts| && Matches(ts[idx[j]], s) && MatchingIds(ts, s)[j] == ts[idx[j]].0
    ensures forall j, k :: 0 <= j < k < |idx| ==> idx[j] < idx[k]
    ensures forall i :: 0 <= i < |ts| && Matches(ts[i], s) ==> i in idx
  {
    if |ts| == 0 {
      idx := [];
    } else {
      var n := |ts| - 1;
      var front := ts[..n];
      var m0 := MatchingIds(front, s);
      idx := MatchingIdsInOrder(front, s);
      assert forall i :: 0 <= i < n ==> front[i] == ts[i];
      if Matches(ts[n], s) {
        assert MatchingIds(ts, s) == m0 + [ts[n].0];
        idx := idx + [n];
      } else {
        assert MatchingIds(ts, s) == m0;
      }
    }
  }

  /** An id is returned exactly when some torrent with that id matches. */
  lemma MatchingIdsMembership(ts: seq<(string, string)>, s: string, x: string)
    ensures x in MatchingIds(ts, s) <==> exists i :: 0 <= i < |ts| && ts[i].0 == x && Matches(ts[i], s)
  {
    var idx := MatchingIdsInOrder(ts, s);
    var m := MatchingIds(ts, s);
    if x in m {
      var j :| 0 <= j < |m| && m[j] == x;
      assert ts[idx[j]].0 == x;
    }
    if i :| 0 <= i < |ts| && ts[i].0 == x && Matches(ts[i], s) {
      var j :| 0 <= j < |idx| && idx[j] == i;
      assert m[j] == x;
    }
  }

  /** Nothing matches exactly when the answer is the empty list. */
  lemma MatchingIdsEmpty(ts: seq<(string, string)>, s: string)
    ensures MatchingIds(ts, s) == [] <==> forall i :: 0 <= i < |ts| ==> !Matches(ts[i], s)
  {
    var idx := MatchingIdsInOrder(ts, s);
    if MatchingIds(ts, s) != [] {
      assert Matches(ts[idx[0]], s);
    }
  }

  /** The empty query matches every torrent: the answer is every id. */
  lemma {:induction false} EmptyQueryMatchesAll(ts: seq<(string, string)>)
    ensures MatchingIds(ts, "") == Ids(ts)
  {
    if |ts| > 0 {
      var n := |ts| - 1;
      EmptyQueryMatchesAll(ts[..n]);
      assert Matches(ts[n], "");
      assert Ids(ts) == Ids(ts[..n]) + [ts[n].0];
    }
  }

  /** Once the list is filled, every torrent is found by its own id. */
  lemma EveryIdMatchesItself(ts: seq<(string, string)>, i: nat)
    requires i < |ts|
    ensures ts[i].0 in MatchingIds(ts, ts[i].0)
  {
    assert StartsWith(ts[i].0, ts[i].0);
    MatchingIdsMembership(ts, ts[i].0, ts[i].0);
  }

  /** `NameOf` finds the first torrent with the id, and finds nothing only
      when no torrent has it. */
  lemma {:induction false} NameOfFirstMatch(ts: seq<(string, string)>, id: string)
    ensures NameOf(ts, id).None? <==> forall i :: 0 <= i < |ts| ==> ts[i].0 != id
    ensures NameOf(ts, id).Some? ==>
              exists i :: 0 <= i < |ts| && ts[i] == (id, NameOf(ts, id).value) &&
                          forall j :: 0 <= j < i ==> ts[j].0 != id
  {
    if |ts| > 0 && ts[0].0 != id {
      NameOfFirstMatch(ts[1..], id);
      assert forall i :: 1 <= i < |ts| ==> ts[1..][i - 1] == ts[i];
      if NameOf(ts, id).Some? {
        var k :| 0 <= k < |ts[1..]| && ts[1..][k] == (id, NameOf(ts, id).value) &&
                 forall j :: 0 <= j < k ==> ts[1..][j].0 != id;
        assert ts[k + 1] == (id, NameOf(ts, id).value);
        assert forall j :: 0 <= j < k + 1 ==> ts[j].0 != id by {
          forall j | 0 <= j < k + 1 ensures ts[j].0 != id {
            if j > 0 { assert ts[1..][j - 1] == ts[j]; }
          }
        }
      }
    }
  }

  /** A torrent whose name is known is also found by its id. */
  lemma NamedTorrentIsMatched(ts: seq<(string, string)>, id: string)
    requires NameOf(ts, id).Some?
    ensures id in MatchingIds(ts, id)
  {
    NameOfFirstMatch(ts, id);
    var i :| 0 <= i < |ts| && ts[i] == (id, NameOf(ts, id).value) &&
             forall j :: 0 <= j < i ==> ts[j].0 != id;
    EveryIdMatchesItself(ts, i);
  }

  /** When every status entry has a name, one pair per entry is appended,
      in order, with that entry's id and name. */
  lemma {:induction false} NamedPairsAll(status: seq<(string, map<string, string>)>)
    requires forall i :: 0 <= i < |status| ==> "name" in status[i].1
    ensures |NamedPairs(status)| == |status|
    ensures forall i :: 0 <= i < |status| ==> NamedPairs(status)[i] == (status[i].0, status[i].1["name"])
  {
    if |status| > 0 {
      assert forall i :: 0 <= i < |status| - 1 ==> status[1..][i] == status[i + 1];
      NamedPairsAll(status[1..]);
    }
  }

  /** The scenario of a daemon that reports two torrents, `Foo.iso` and
      `Bar.zip`: both the name prefix and the id prefix find the first. */
  lemma SessionScenario()
    ensures var ts := NamedPairs([("abc123", map["name" := "Foo.iso"]), ("def456", map["name" := "Bar.zip"])]);
            MatchingIds(ts, "Foo") == ["abc123"] && MatchingIds(ts, "abc") == ["abc123"]
  {
    var status := [("abc123", map["name" := "Foo.iso"]), ("def456", map["name" := "Bar.zip"])];
    var ts := NamedPairs(status);
    assert status[1..] == [("def456", map["name" := "Bar.zip"])];
    assert ts == [("abc123", "Foo.iso"), ("def456", "Bar.zip")];
    assert ts[..1] == [("abc123", "Foo.iso")];
    assert ts[..1][..0] == [];
    assert "def456"[..3][0] == 'd' && "Bar.zip"[..3][0] == 'B';
    assert !StartsWith("def456", "Foo") && !StartsWith("Bar.zip", "Foo");
    assert !StartsWith("def456", "abc") && !StartsWith("Bar.zip", "abc");
    assert StartsWith("Foo.iso", "Foo") && StartsWith("abc123", "abc");
  }
}
