# Deluge console front end: command discovery, help listing and session

A Dafny model of the core of Deluge's console user interface
(`deluge/ui/console/console.py` and `deluge/ui/console/main.py`). It covers:

- **Command discovery** (`load_commands`). The command directory is listed,
  and private, excluded and non-module files are skipped. The module of
  each remaining file is imported, once per file, and its command is recorded under its file-derived
  name and every alias it declares. The records become a dictionary in which
  the last record for a key wins, so a key that two files declare gets the
  command of the later one in listing order. A directory that cannot be listed gives an
  empty table.
- **The command help listing** (`CommandOptionGroup.format_help`). It prints
  the title heading, then the description when there is one. One step in, it
  prints one heading per command key, `name/alias/... - docstring`, with the
  usage line one further step in. Interactive-only commands and alias keys
  get no heading.
- **The command base class.** `split` doubles backslashes on Windows before
  shell-style tokenising; `complete` offers nothing; `name` is `base`. There
  is also the option parser whose `exit` sets a flag and prints its message
  instead of exiting, and whose `error` raises.
- **The `ConsoleUI` session**:
  - start-up: interactive curses mode, the Windows notice, no commands, or
    running the first positional argument as a command line;
  - `start`, with its two chained daemon callbacks that fill the
    `(torrent id, name)` list;
  - torrent matching by id or name prefix, and name lookup by id, each either
    forwarded to the legacy screen or answered from the list;
  - mode switching, which re-registers the event loop reader and moves the
    status bars;
  - `write`, which sends output to the legacy screen, the event log or
    standard output.

Files:

- `pystr.dfy` (module `PyStr`): the Python string operations the code uses
  (`startswith`, `endswith`, one-character `split`, `join`), with Python's
  semantics, and their round trips.
- `main.dfy` (module `ConsoleMain`): `Command`, `OptionParser`, the
  `BaseCommand` operations, the start-up decision `LaunchOf`, and the class
  `ConsoleUI` with its state and methods. It also holds the lemmas about
  torrent matching and lookup.
- `console.dfy` (module `Console`): `LoadCommands` and `FormatCommands`
  as methods with loops, and `FormatHelp`, which calls `FormatCommands`.
  Each is proved equal to a specification function (`Registry`,
  `EntriesText`, `HelpText`), and lemmas about those functions state what
  the table and the listing contain.

Calls into code outside the core are parameters:

- the directory listing is a `Listing`;
- the module import is `load: string -> Command`;
- `shlex.split` is `shlexSplit`;
- the formatter's `format_heading` and `format_description` are `heading` and
  `describe`;
- the encoding and colour stripping of `write` is `render`;
- the platform test is `windows`;
- the iteration order of a Python 2 dictionary is a sequence `order`, or the
  order of the `status` list.

Screens are values `Screen(id, kind, hasNameLookup)`. `kind` says whether the
screen is the legacy mode. `hasNameLookup` stands for
`hasattr(screen, "get_torrent_name")`. The event loop's readers are a set of
screens.

`match_torrent` does not remove duplicate ids and does not put id matches
before name matches: it returns the id of every matching `(id, name)` pair,
in list order (`MatchingIds`, `MatchingIdsInOrder`).

## Model

| member | source | states |
|---|---|---|
| Console.LoadCommands | deluge/ui/console/console.py:43-61 | the table returned equals `Registry(listing, exclude, load)`: empty for an unreadable directory, otherwise the dict of the name and alias records of the accepted files, built in listing order |
| Console.AppendEntries | deluge/ui/console/console.py:57-58 | the inner loop appends `(key, cmd)` for every key in order and keeps the earlier records |
| Console.LoadedFilesExactly | deluge/ui/console/console.py:49-53 | a file is imported iff it is listed, its first dot segment is not excluded, it does not start with `_`, and it ends in `.py` or `.pyc` |
| Console.ModuleFileNames | deluge/ui/console/console.py:50-54 | for a name made of dot-free segments, the exclude test sees the first segment and the command name is the segment before the extension |
| Console.FileNameExamples | deluge/ui/console/console.py:50-54 | `add.py` is checked and named as `add`; `a.b.py` is checked as `a` and named `b` |
| Console.AcceptedFileName | deluge/ui/console/console.py:52-54 | an accepted file splits into at least two segments, so the `len - 2` index is the second-to-last segment and never Python's negative index |
| Console.FileEntriesOrder | deluge/ui/console/console.py:54-58 | a file contributes `1 + len(aliases)` records: the command under its file name first, then under each alias in declaration order |
| Console.PairsMembership | deluge/ui/console/console.py:57-58 | a record is appended iff its key is among the names and its value is the command |
| Console.EntriesOfMembership | deluge/ui/console/console.py:49-58 | the record list holds `(k, c)` iff some loaded file provides `c` and declares `k` as its name or an alias |
| Console.DictKeys | deluge/ui/console/console.py:59 | `dict(commands)` has key `k` iff some record has key `k` |
| Console.DictLastWins | deluge/ui/console/console.py:59 | a record that no later record with the same key follows decides that key's value |
| Console.DictBindingIsAPair | deluge/ui/console/console.py:59 | every binding of the dict is one of the records |
| Console.DictOfDistinct | deluge/ui/console/console.py:59 | when no two records share a key, every record is a binding |
| Console.RegistryKeys | deluge/ui/console/console.py:43-61 | the table's keys are exactly the names and aliases declared by accepted files; an unreadable directory (`OSError`) gives `{}` |
| Console.RegistryValues | deluge/ui/console/console.py:54-59 | every key maps to the command of an accepted file, and the key is that file's name or one of the command's aliases |
| Console.DictOfAppend | deluge/ui/console/console.py:59 | `dict(a + b)` is `dict(a)` overridden by `dict(b)` |
| Console.DictOfPairs | deluge/ui/console/console.py:57-59 | the records of one command give a dict with exactly their keys, each bound to that command |
| Console.FileEntriesDict | deluge/ui/console/console.py:54-59 | the records of one file bind exactly the keys it declares, each to its command |
| Console.DictOfFileAppended | deluge/ui/console/console.py:49-59 | the records of the next loaded file override the table built from the earlier ones |
| Console.RegistryLastFileWins | deluge/ui/console/console.py:49-59 | with no assumption on the other files, a key gets the command of the last accepted file in listing order that declares it |
| Console.RegistryFindsDeclaredKey | deluge/ui/console/console.py:54-59 | when no key is declared by two different modules, a key that an accepted file declares is in the table and gives that file's command |
| Console.RegistryResolvesAliases | deluge/ui/console/console.py:54-59 | when no key is declared by two different modules, a command is found under its file name and under every alias |
| Console.SameModuleNoClash | deluge/ui/console/console.py:50-58 | two files that name the same module never clash on a key, since both give the same module's command |
| Console.SameModuleTwice | deluge/ui/console/console.py:52-58 | two accepted files naming the same module record that name twice, so the records' keys are not distinct |
| Console.PyAndPycListing | deluge/ui/console/console.py:49-58 | a directory listing both `add.py` and `add.pyc` loads both, records `add` twice, and still has no key clash |
| Console.DifferentModulesClash | deluge/ui/console/console.py:54-59 | two accepted files of different modules that declare the same key clash on it |
| Console.EqualMetadataStillClashes | deluge/ui/console/console.py:54-59 | two different modules `foo.py` and `bar.py` whose commands have the same metadata and share the alias `x` do clash, because each file gives its own command instance |
| Console.RegistryScenario | deluge/ui/console/console.py:43-61 | the listing `__init__.py`, `add.py`, `pause.py` with aliases `a` and `p`, `stop` gives `a` and `add` the same command, `stop` gives `pause`, and `remove` is unknown |
| Console.ScenarioLoadedFiles | deluge/ui/console/console.py:49-53 | in that listing `__init__.py` is skipped as private and the two modules are imported in order |
| Console.ScenarioEntries | deluge/ui/console/console.py:54-58 | the records of that listing are `add`, `a`, `pause`, `p`, `stop`, in that order, with their commands |
| Console.ScenarioTable | deluge/ui/console/console.py:59 | the dict of those five records binds each key to its command |
| Console.UnreadableDirectoryStopsBatch | deluge/ui/console/console.py:60-61 | an unlistable command directory leaves batch mode with no commands, so it prints the apology and stops |
| Console.FormatHelp | deluge/ui/console/console.py:96-112 | the text returned equals `HelpText`: title heading, the description line only when the description is non-empty, then the listed entries one indentation step in |
| Console.FormatCommands | deluge/ui/console/console.py:101-110 | the loop's text is, in iteration order, one heading plus usage line, indented one further step, for each key that gets a heading, all at the same indentation |
| Console.ListedKeysExactly | deluge/ui/console/console.py:101-103 | a key gets a heading iff it is iterated, its command is not interactive-only, and the key is not among that command's aliases |
| Console.HeadingTextShape | deluge/ui/console/console.py:104-107 | a heading is the names joined by `/`, then ` - ` and the docstring; it starts with the key; with `/`-free names, splitting at `/` gives the names back |
| Console.HelpListsEachCommandOnce | deluge/ui/console/console.py:96-112 | in a table where no key is declared by two different modules, a loaded command gets a heading under its name unless it is interactive-only or names itself as an alias, and none of its aliases gets one |
| ConsoleMain.OptionParser.Exit | deluge/ui/console/main.py:58-61 | whatever the status, `exit` sets the exit flag and prints the message only when it is given and non-empty; it does not end the process |
| ConsoleMain.OptionParser.Error | deluge/ui/console/main.py:63-70 | `error` raises an exception carrying the message and changes nothing |
| ConsoleMain.Complete | deluge/ui/console/main.py:80-81 | the default completer returns no candidates |
| ConsoleMain.Name | deluge/ui/console/main.py:85-87 | the base command's name is `base` |
| ConsoleMain.EscapeBackslashes | deluge/ui/console/main.py:94-95 | each backslash becomes two, so the length grows by the number of backslashes |
| ConsoleMain.EscapeRoundTrip | deluge/ui/console/main.py:94-95 | reading doubled backslashes back as single ones gives the original text |
| ConsoleMain.EscapeKeepsOtherCharacters | deluge/ui/console/main.py:94-95 | apart from backslashes the escaped text has the same characters in the same order |
| ConsoleMain.EscapeWithoutBackslashes | deluge/ui/console/main.py:94-95 | text without backslashes is left unchanged |
| ConsoleMain.SplitCommandLine | deluge/ui/console/main.py:93-96 | on Windows the tokeniser sees the escaped text; elsewhere, or without backslashes, it sees the text as given |
| ConsoleMain.LaunchOf | deluge/ui/console/main.py:126-159 | no arguments: curses, or the notice on Windows; otherwise with no commands the apology, and with commands the first argument is run against the daemon tuple, or four `None`s without one |
| ConsoleMain.LaunchIgnoresLaterArguments | deluge/ui/console/main.py:129-130 | only the first positional argument affects start-up |
| ConsoleMain.ConsoleUI.constructor | deluge/ui/console/main.py:106-159 | the session is interactive iff there are no arguments; the command table is kept; the event log starts empty and no torrent list exists yet; standard output gets the apology or the Windows notice as the launch decides; in curses mode `run` installs the first screen |
| ConsoleMain.ConsoleUI.Run | deluge/ui/console/main.py:161-187 | `run` makes the given screen current, gives the session fresh status bars, registers the screen as a reader and changes nothing else |
| ConsoleMain.ConsoleUI.Start | deluge/ui/console/main.py:190-202 | the torrent list is created empty; in batch mode the session waits for the session state; nothing else changes |
| ConsoleMain.ConsoleUI.OnSessionState | deluge/ui/console/main.py:195-201 | the reported ids become the status request; nothing else changes |
| ConsoleMain.ConsoleUI.OnTorrentsStatus | deluge/ui/console/main.py:196-199 | one `(id, name)` pair per status entry is appended in order; the start completes iff every entry has a name, and a missing name stops the loop after the pairs before it |
| ConsoleMain.NamedPairsAll | deluge/ui/console/main.py:197-198 | when every entry has a name, the appended pairs are exactly the entries' ids and names, one each, in order |
| ConsoleMain.ConsoleUI.MatchTorrent | deluge/ui/console/main.py:205-223 | the query is forwarded iff the session is interactive on the legacy screen; otherwise, before `start` has created the torrent list, the lookup raises (`NoTorrentList`), and after it the answer is `MatchingIds(torrents, s)` |
| ConsoleMain.MatchingIdsInOrder | deluge/ui/console/main.py:218-223 | the answer lists the ids of exactly the pairs whose id or name starts with the query, in increasing list position |
| ConsoleMain.MatchingIdsMembership | deluge/ui/console/main.py:218-223 | an id is answered iff some pair with that id matches |
| ConsoleMain.MatchingIdsEmpty | deluge/ui/console/main.py:212-213 | the answer is empty iff no pair matches |
| ConsoleMain.EmptyQueryMatchesAll | deluge/ui/console/main.py:219-221 | the empty query answers every id, in list order |
| ConsoleMain.EveryIdMatchesItself | deluge/ui/console/main.py:219-221 | every torrent is found by its own id |
| ConsoleMain.SessionScenario | deluge/ui/console/main.py:196-223 | after the daemon reports `Foo.iso` and `Bar.zip`, both `Foo` and `abc` find only the first torrent |
| ConsoleMain.ConsoleUI.GetTorrentName | deluge/ui/console/main.py:226-234 | the lookup is forwarded iff the session is interactive and the screen has its own lookup; otherwise, before `start` has created the torrent list, the lookup raises (`NoTorrentList`), and after it the answer is `NameOf(torrents, id)` |
| ConsoleMain.NameOfFirstMatch | deluge/ui/console/main.py:230-234 | the answer is `None` iff no pair has the id; otherwise it is the name of the first pair with that id |
| ConsoleMain.NamedTorrentIsMatched | deluge/ui/console/main.py:219-232 | a torrent whose name lookup succeeds is also matched by its id |
| ConsoleMain.ConsoleUI.SetBatchWrite | deluge/ui/console/main.py:237-239 | forwarded iff interactive on the legacy screen; otherwise the call returns `None` (`Answer(())`) and never raises |
| ConsoleMain.ConsoleUI.TabCompleteTorrent | deluge/ui/console/main.py:241-243 | forwarded iff interactive on the legacy screen; otherwise the call returns `None` (`Answer(())`) and never raises |
| ConsoleMain.ConsoleUI.SetMode | deluge/ui/console/main.py:245-249 | the old screen leaves the readers and the new one joins them; it becomes the screen and the status bars' screen; nothing else changes; a single registered screen is replaced by the new one |
| ConsoleMain.ConsoleUI.Write | deluge/ui/console/main.py:254-261 | interactive on the legacy screen: the text goes to the screen; interactive on another mode: it is appended to the events; batch mode: its rendering is printed; nothing else changes |
| PyStr.Split | deluge/ui/console/console.py:50 | `split('.')` returns at least one piece and no piece holds the separator |
| PyStr.JoinSplit | deluge/ui/console/console.py:106 | joining the pieces of a split with the separator gives back the string |
| PyStr.SplitJoin | deluge/ui/console/console.py:106 | splitting a join of separator-free pieces gives back the pieces |
| PyStr.SplitHasTwoPieces | deluge/ui/console/console.py:52-54 | a string that holds the separator splits into at least two pieces |

## Left out

- Importing command modules (`__import__`, `getattr`, constructing `Command()`) is the parameter `load`. An import that raises is not modelled. An `OSError` anywhere in the loop gives `{}`; the model raises it only from the listing, as `Unreadable`.
- `os.listdir` and `os.path.join(UI_PATH, 'commands')` are not modelled; the listing is an input.
- The iteration order of Python 2 dictionaries (`for cname in self.cmds`, `torrents.items()`) is an input: the sequence `order` in `FormatHelp`, and the order of the `status` list in `OnTorrentsStatus`.
- `FormatHelp`: optparse's `HelpFormatter` is reduced to its current indentation and its indentation step. `format_heading` and `format_description`, including their line wrapping, are parameters, and `indent`/`dedent` are arithmetic on that indentation.
- `FormatHelp`, `FormatCommands`: the formatter's `indent` and `dedent` calls are modelled as the indentation values they produce. The formatter object, which ends at the indentation it started with, is not modified.
- `FormatHelp`: a command whose `__doc__` is `None` makes the join raise `TypeError`; `Command.doc` is always a string in the model.
- `FormatHelp`: a `CommandOptionGroup` built with `cmds=None` cannot be iterated. The console always passes its loaded table, which the model assumes.
- `SplitCommandLine`: `shlex.split` is the parameter `shlexSplit`, and `windows_check` is the parameter `windows`.
- `ConsoleUI.Write`: `s.encode(self.encoding)` and `colors.strip_colors` are the parameter `render`; the locale set-up in `__init__` is not modelled.
- What the legacy screen does with a forwarded `match_torrent`, `get_torrent_name`, `set_batch_write`, `tab_complete_torrent` or `write` is not modelled; the reply is `Forwarded`.
- `Commander(cmds).exec_args` is recorded only as the `Execute` launch with its command line and daemon tuple. `commander.py` is not part of this model.
- `ConsoleMain.ConsoleUI.MatchTorrent`, `GetTorrentName`, `SetBatchWrite`, `TabCompleteTorrent`, `Write`, `SetMode`: without a screen (interactive mode on Windows, and for `set_mode` also batch mode) the source raises `AttributeError` when these read `self.screen`. The model requires a screen in those cases instead of modelling the error.
- `ConsoleMain.ConsoleUI.constructor`: the Windows notice is kept as its first sentence (`WindowsModeMessage`), not the full multi-line text.
- `ConsoleMain.ConsoleUI.constructor`, `Run`: curses, colours, `StatusBars`, `EventLog`, the top and bottom bar text, `refresh`, and the `ConnectionManager` mode are outside the model. The first screen is a parameter, and the fresh status bars have no screen (`statusbarScreen == None`).
- The Twisted reactor (`reactor.run`, `addReader`, `removeReader`) is the reader set `readers`; the event loop itself is not modelled.
- `Start`: the deferreds and the two remote calls are modelled as the phases of `StartPhase` and the callback methods `OnSessionState` and `OnTorrentsStatus`. The daemon's replies are their arguments.
- `on_client_disconnect` (`component.stop()`), `component.Component` registration, `SessionProxy`, `CoreConfig` and logging are not modelled: they only call into other components.
- `BaseCommand.create_parser`, `epilog`, `handle` and `option_list` are not modelled; they are plain attributes or hand off to optparse. `BaseCommand`'s default class attributes (`usage = 'usage'`, `aliases = []`, `interactive_only = False`) are not modelled either; each `Command` carries its own values.
- The `Console` class's option definitions and `Console.start` are not modelled; they are option-parser configuration.
